/** The CRC-32 of section 8 of RFC 1952, table driven, and the errors it is sure to detect. */
module Crc32 {

  /** One bit of the bitwise definition. */
  function Shift(c: bv32): bv32 {
    if c & 1 != 0 then (c >> 1) ^ 0xEDB88320 else c >> 1
  }

  function Shift8(c: bv32): bv32 {
    Shift(Shift(Shift(Shift(Shift(Shift(Shift(Shift(c))))))))
  }

  function Xor(x: bv32, y: bv32): bv32 {
    x ^ y
  }

  /** The bitwise definition for one byte. */
  function Update(c: bv32, b: bv8): bv32 {
    Shift8(Xor(c, b as bv32))
  }

  /** The bitwise definition for a whole message, without the complements at both ends. */
  function Register(c: bv32, s: seq<bv8>): bv32
    decreases |s|
  {
    if s == [] then c else Register(Update(c, s[0]), s[1..])
  }

  function Checksum(s: seq<bv8>, ival: bv32): bv32 {
    Xor(Register(Xor(ival, 0xffffffff), s), 0xffffffff)
  }

  // The rows of `crc32_table`, sixteen entries each. Every row is checked against the bitwise
  // definition.

  function Row0(lo: bv8): (r: bv32)
    requires lo < 16
    ensures r == Shift8(0x00 | lo as bv32)
  {
    match lo
    case 0 => 0x00000000 case 1 => 0x77073096 case 2 => 0xee0e612c case 3 => 0x990951ba
    case 4 => 0x076dc419 case 5 => 0x706af48f case 6 => 0xe963a535 case 7 => 0x9e6495a3
    case 8 => 0x0edb8832 case 9 => 0x79dcb8a4 case 10 => 0xe0d5e91e case 11 => 0x97d2d988
    case 12 => 0x09b64c2b case 13 => 0x7eb17cbd case 14 => 0xe7b82d07 case _ => 0x90bf1d91
  }

  function Row1(lo: bv8): (r: bv32)
    requires lo < 16
    ensures r == Shift8(0x10 | lo as bv32)
  {
    match lo
    case 0 => 0x1db71064 case 1 => 0x6ab020f2 case 2 => 0xf3b97148 case 3 => 0x84be41de
    case 4 => 0x1adad47d case 5 => 0x6ddde4eb case 6 => 0xf4d4b551 case 7 => 0x83d385c7
    case 8 => 0x136c9856 case 9 => 0x646ba8c0 case 10 => 0xfd62f97a case 11 => 0x8a65c9ec
    case 12 => 0x14015c4f case 13 => 0x63066cd9 case 14 => 0xfa0f3d63 case _ => 0x8d080df5
  }

  function Row2(lo: bv8): (r: bv32)
    requires lo < 16
    ensures r == Shift8(0x20 | lo as bv32)
  {
    match lo
    case 0 => 0x3b6e20c8 case 1 => 0x4c69105e case 2 => 0xd56041e4 case 3 => 0xa2677172
    case 4 => 0x3c03e4d1 case 5 => 0x4b04d447 case 6 => 0xd20d85fd case 7 => 0xa50ab56b
    case 8 => 0x35b5a8fa case 9 => 0x42b2986c case 10 => 0xdbbbc9d6 case 11 => 0xacbcf940
    case 12 => 0x32d86ce3 case 13 => 0x45df5c75 case 14 => 0xdcd60dcf case _ => 0xabd13d59
  }

  function Row3(lo: bv8): (r: bv32)
    requires lo < 16
    ensures r == Shift8(0x30 | lo as bv32)
  {
    match lo
    case 0 => 0x26d930ac case 1 => 0x51de003a case 2 => 0xc8d75180 case 3 => 0xbfd06116
    case 4 => 0x21b4f4b5 case 5 => 0x56b3c423 case 6 => 0xcfba9599 case 7 => 0xb8bda50f
    case 8 => 0x2802b89e case 9 => 0x5f058808 case 10 => 0xc60cd9b2 case 11 => 0xb10be924
    case 12 => 0x2f6f7c87 case 13 => 0x58684c11 case 14 => 0xc1611dab case _ => 0xb6662d3d
  }

  function Row4(lo: bv8): (r: bv32)
    requires lo < 16
    ensures r == Shift8(0x40 | lo as bv32)
  {
    match lo
    case 0 => 0x76dc4190 case 1 => 0x01db7106 case 2 => 0x98d220bc case 3 => 0xefd5102a
    case 4 => 0x71b18589 case 5 => 0x06b6b51f case 6 => 0x9fbfe4a5 case 7 => 0xe8b8d433
    case 8 => 0x7807c9a2 case 9 => 0x0f00f934 case 10 => 0x9609a88e case 11 => 0xe10e9818
    case 12 => 0x7f6a0dbb case 13 => 0x086d3d2d case 14 => 0x91646c97 case _ => 0xe6635c01
  }

  function Row5(lo: bv8): (r: bv32)
    requires lo < 16
    ensures r == Shift8(0x50 | lo as bv32)
  {
    match lo
    case 0 => 0x6b6b51f4 case 1 => 0x1c6c6162 case 2 => 0x856530d8 case 3 => 0xf262004e
    case 4 => 0x6c0695ed case 5 => 0x1b01a57b case 6 => 0x8208f4c1 case 7 => 0xf50fc457
    case 8 => 0x65b0d9c6 case 9 => 0x12b7e950 case 10 => 0x8bbeb8ea case 11 => 0xfcb9887c
    case 12 => 0x62dd1ddf case 13 => 0x15da2d49 case 14 => 0x8cd37cf3 case _ => 0xfbd44c65
  }

  function Row6(lo: bv8): (r: bv32)
    requires lo < 16
    ensures r == Shift8(0x60 | lo as bv32)
  {
    match lo
    case 0 => 0x4db26158 case 1 => 0x3ab551ce case 2 => 0xa3bc0074 case 3 => 0xd4bb30e2
    case 4 => 0x4adfa541 case 5 => 0x3dd895d7 case 6 => 0xa4d1c46d case 7 => 0xd3d6f4fb
    case 8 => 0x4369e96a case 9 => 0x346ed9fc case 10 => 0xad678846 case 11 => 0xda60b8d0
    case 12 => 0x44042d73 case 13 => 0x33031de5 case 14 => 0xaa0a4c5f case _ => 0xdd0d7cc9
  }

  function Row7(lo: bv8): (r: bv32)
    requires lo < 16
    ensures r == Shift8(0x70 | lo as bv32)
  {
    match lo
    case 0 => 0x5005713c case 1 => 0x270241aa case 2 => 0xbe0b1010 case 3 => 0xc90c2086
    case 4 => 0x5768b525 case 5 => 0x206f85b3 case 6 => 0xb966d409 case 7 => 0xce61e49f
    case 8 => 0x5edef90e case 9 => 0x29d9c998 case 10 => 0xb0d09822 case 11 => 0xc7d7a8b4
    case 12 => 0x59b33d17 case 13 => 0x2eb40d81 case 14 => 0xb7bd5c3b case _ => 0xc0ba6cad
  }

  function Row8(lo: bv8): (r: bv32)
    requires lo < 16
    ensures r == Shift8(0x80 | lo as bv32)
  {
    match lo
    case 0 => 0xedb88320 case 1 => 0x9abfb3b6 case 2 => 0x03b6e20c case 3 => 0x74b1d29a
    case 4 => 0xead54739 case 5 => 0x9dd277af case 6 => 0x04db2615 case 7 => 0x73dc1683
    case 8 => 0xe3630b12 case 9 => 0x94643b84 case 10 => 0x0d6d6a3e case 11 => 0x7a6a5aa8
    case 12 => 0xe40ecf0b case 13 => 0x9309ff9d case 14 => 0x0a00ae27 case _ => 0x7d079eb1
  }

  function Row9(lo: bv8): (r: bv32)
    requires lo < 16
    ensures r == Shift8(0x90 | lo as bv32)
  {
    match lo
    case 0 => 0xf00f9344 case 1 => 0x8708a3d2 case 2 => 0x1e01f268 case 3 => 0x6906c2fe
    case 4 => 0xf762575d case 5 => 0x806567cb case 6 => 0x196c3671 case 7 => 0x6e6b06e7
    case 8 => 0xfed41b76 case 9 => 0x89d32be0 case 10 => 0x10da7a5a case 11 => 0x67dd4acc
    case 12 => 0xf9b9df6f case 13 => 0x8ebeeff9 case 14 => 0x17b7be43 case _ => 0x60b08ed5
  }

  function Row10(lo: bv8): (r: bv32)
    requires lo < 16
    ensures r == Shift8(0xa0 | lo as bv32)
  {
    match lo
    case 0 => 0xd6d6a3e8 case 1 => 0xa1d1937e case 2 => 0x38d8c2c4 case 3 => 0x4fdff252
    case 4 => 0xd1bb67f1 case 5 => 0xa6bc5767 case 6 => 0x3fb506dd case 7 => 0x48b2364b
    case 8 => 0xd80d2bda case 9 => 0xaf0a1b4c case 10 => 0x36034af6 case 11 => 0x41047a60
    case 12 => 0xdf60efc3 case 13 => 0xa867df55 case 14 => 0x316e8eef case _ => 0x4669be79
  }

  function Row11(lo: bv8): (r: bv32)
    requires lo < 16
    ensures r == Shift8(0xb0 | lo as bv32)
  {
    match lo
    case 0 => 0xcb61b38c case 1 => 0xbc66831a case 2 => 0x256fd2a0 case 3 => 0x5268e236
    case 4 => 0xcc0c7795 case 5 => 0xbb0b4703 case 6 => 0x220216b9 case 7 => 0x5505262f
    case 8 => 0xc5ba3bbe case 9 => 0xb2bd0b28 case 10 => 0x2bb45a92 case 11 => 0x5cb36a04
    case 12 => 0xc2d7ffa7 case 13 => 0xb5d0cf31 case 14 => 0x2cd99e8b case _ => 0x5bdeae1d
  }

  function Row12(lo: bv8): (r: bv32)
    requires lo < 16
    ensures r == Shift8(0xc0 | lo as bv32)
  {
    match lo
    case 0 => 0x9b64c2b0 case 1 => 0xec63f226 case 2 => 0x756aa39c case 3 => 0x026d930a
    case 4 => 0x9c0906a9 case 5 => 0xeb0e363f case 6 => 0x72076785 case 7 => 0x05005713
    case 8 => 0x95bf4a82 case 9 => 0xe2b87a14 case 10 => 0x7bb12bae case 11 => 0x0cb61b38
    case 12 => 0x92d28e9b case 13 => 0xe5d5be0d case 14 => 0x7cdcefb7 case _ => 0x0bdbdf21
  }

  function Row13(lo: bv8): (r: bv32)
    requires lo < 16
    ensures r == Shift8(0xd0 | lo as bv32)
  {
    match lo
    case 0 => 0x86d3d2d4 case 1 => 0xf1d4e242 case 2 => 0x68ddb3f8 case 3 => 0x1fda836e
    case 4 => 0x81be16cd case 5 => 0xf6b9265b case 6 => 0x6fb077e1 case 7 => 0x18b74777
    case 8 => 0x88085ae6 case 9 => 0xff0f6a70 case 10 => 0x66063bca case 11 => 0x11010b5c
    case 12 => 0x8f659eff case 13 => 0xf862ae69 case 14 => 0x616bffd3 case _ => 0x166ccf45
  }

  function Row14(lo: bv8): (r: bv32)
    requires lo < 16
    ensures r == Shift8(0xe0 | lo as bv32)
  {
    match lo
    case 0 => 0xa00ae278 case 1 => 0xd70dd2ee case 2 => 0x4e048354 case 3 => 0x3903b3c2
    case 4 => 0xa7672661 case 5 => 0xd06016f7 case 6 => 0x4969474d case 7 => 0x3e6e77db
    case 8 => 0xaed16a4a case 9 => 0xd9d65adc case 10 => 0x40df0b66 case 11 => 0x37d83bf0
    case 12 => 0xa9bcae53 case 13 => 0xdebb9ec5 case 14 => 0x47b2cf7f case _ => 0x30b5ffe9
  }

  function Row15(lo: bv8): (r: bv32)
    requires lo < 16
    ensures r == Shift8(0xf0 | lo as bv32)
  {
    match lo
    case 0 => 0xbdbdf21c case 1 => 0xcabac28a case 2 => 0x53b39330 case 3 => 0x24b4a3a6
    case 4 => 0xbad03605 case 5 => 0xcdd70693 case 6 => 0x54de5729 case 7 => 0x23d967bf
    case 8 => 0xb3667a2e case 9 => 0xc4614ab8 case 10 => 0x5d681b02 case 11 => 0x2a6f2b94
    case 12 => 0xb40bbe37 case 13 => 0xc30c8ea1 case 14 => 0x5a05df1b case _ => 0x2d02ef8d
  }

  /** `crc32_table[x]` */
  function Table(x: bv8): (r: bv32)
    ensures r == Shift8(x as bv32)
  {
    var lo := x & 0x0f;
    match x >> 4
    case 0 => Row0(lo) case 1 => Row1(lo) case 2 => Row2(lo) case 3 => Row3(lo)
    case 4 => Row4(lo) case 5 => Row5(lo) case 6 => Row6(lo) case 7 => Row7(lo)
    case 8 => Row8(lo) case 9 => Row9(lo) case 10 => Row10(lo) case 11 => Row11(lo)
    case 12 => Row12(lo) case 13 => Row13(lo) case 14 => Row14(lo) case _ => Row15(lo)
  }

  // Facts about single words. The proofs above them hide the word operations and use only these.

  lemma XorCancel(x: bv32, y: bv32)
    ensures Xor(Xor(x, y), y) == x
  {
  }

  lemma XorSwap(x: bv32, y: bv32, z: bv32)
    ensures Xor(Xor(x, y), z) == Xor(x, Xor(y, z))
    ensures Xor(x, y) == Xor(y, x)
  {
  }

  lemma ShiftEven(x: bv32)
    requires x & 1 == 0
    ensures Shift(x) == x >> 1
  {
  }

  lemma ShiftOdd(x: bv32)
    requires x & 1 == 1
    ensures Shift(x) == Xor(x >> 1, 0xEDB88320)
  {
  }

  lemma XorBits(x: bv32, y: bv32)
    ensures Xor(x, y) & 1 == Xor(x & 1, y & 1)
    ensures Xor(x, y) >> 1 == Xor(x >> 1, y >> 1)
    ensures x & 1 == 0 || x & 1 == 1
    ensures Xor(0, 0) == 0 == Xor(1, 1) && Xor(0, 1) == 1 == Xor(1, 0)
  {
  }

  lemma XorRegroup(x: bv32, y: bv32, p: bv32)
    ensures Xor(Xor(x, p), Xor(y, p)) == Xor(x, y)
    ensures Xor(Xor(x, p), y) == Xor(Xor(x, y), p) == Xor(x, Xor(y, p))
  {
    hide Xor;
    XorSwap(x, y, p);
    XorSwap(y, p, p);
    XorSwap(x, p, y);
    XorSwap(x, p, Xor(y, p));
    XorSwap(p, Xor(y, p), 0);
    XorCancel(y, p);
  }

  lemma ShiftXor(x: bv32, y: bv32)
    ensures Shift(Xor(x, y)) == Xor(Shift(x), Shift(y))
  {
    hide Shift, Xor;
    XorBits(x, y);
    XorBits(y, x);
    XorRegroup(x >> 1, y >> 1, 0xEDB88320);
    if x & 1 == 0 { ShiftEven(x); } else { ShiftOdd(x); }
    if y & 1 == 0 { ShiftEven(y); } else { ShiftOdd(y); }
    if Xor(x, y) & 1 == 0 { ShiftEven(Xor(x, y)); } else { ShiftOdd(Xor(x, y)); }
  }

  lemma Shift8Xor(x: bv32, y: bv32)
    ensures Shift8(Xor(x, y)) == Xor(Shift8(x), Shift8(y))
  {
    hide Shift, Xor;
    var x1, y1 := Shift(x), Shift(y);
    var x2, y2 := Shift(x1), Shift(y1);
    var x3, y3 := Shift(x2), Shift(y2);
    var x4, y4 := Shift(x3), Shift(y3);
    var x5, y5 := Shift(x4), Shift(y4);
    var x6, y6 := Shift(x5), Shift(y5);
    var x7, y7 := Shift(x6), Shift(y6);
    ShiftXor(x, y);
    ShiftXor(x1, y1);
    ShiftXor(x2, y2);
    ShiftXor(x3, y3);
    ShiftXor(x4, y4);
    ShiftXor(x5, y5);
    ShiftXor(x6, y6);
    ShiftXor(x7, y7);
  }

  lemma ShiftInjective(x: bv32, y: bv32)
    requires Shift(x) == Shift(y)
    ensures x == y
  {
  }

  lemma Shift8Injective(x: bv32, y: bv32)
    requires Shift8(x) == Shift8(y)
    ensures x == y
  {
    hide Shift;
    var x1, y1 := Shift(x), Shift(y);
    var x2, y2 := Shift(x1), Shift(y1);
    var x3, y3 := Shift(x2), Shift(y2);
    var x4, y4 := Shift(x3), Shift(y3);
    var x5, y5 := Shift(x4), Shift(y4);
    var x6, y6 := Shift(x5), Shift(y5);
    var x7, y7 := Shift(x6), Shift(y6);
    ShiftInjective(x7, y7);
    ShiftInjective(x6, y6);
    ShiftInjective(x5, y5);
    ShiftInjective(x4, y4);
    ShiftInjective(x3, y3);
    ShiftInjective(x2, y2);
    ShiftInjective(x1, y1);
    ShiftInjective(x, y);
  }

  /** Eight bit steps over a register whose low byte is clear only move it down. */
  lemma Shift8OfHigh(x: bv32)
    requires x & 0xff == 0
    ensures Shift8(x) == x >> 8
  {
  }

  lemma SplitLow(x: bv32)
    ensures Xor(x & 0xff, x & 0xffffff00) == x
    ensures (x & 0xffffff00) & 0xff == 0 && (x & 0xffffff00) >> 8 == x >> 8
    ensures ((x & 0xff) as bv8) as bv32 == x & 0xff
  {
  }

  lemma HighUnaffected(c: bv32, b: bv8)
    ensures Xor(c, b as bv32) >> 8 == c >> 8
  {
  }

  /** One round of the loop of the source: the table step is the bitwise step. */
  function TableUpdate(c: bv32, b: bv8): (r: bv32)
    ensures r == Update(c, b)
  {
    hide Shift8, Table, Xor;
    var x := Xor(c, b as bv32);
    SplitLow(x);
    HighUnaffected(c, b);
    Shift8Xor(x & 0xff, x & 0xffffff00);
    Shift8OfHigh(x & 0xffffff00);
    Xor(Table((x & 0xff) as bv8), c >> 8)
  }

  method ComputeCrc32(data: seq<bv8>, ival: bv32) returns (crc: bv32)
    ensures crc == Checksum(data, ival)
  {
    hide Xor, Update, TableUpdate;
    var retval := Xor(ival, 0xffffffff);
    var p := 0;
    while p < |data|
      invariant 0 <= p <= |data|
      invariant Register(retval, data[p..]) == Register(Xor(ival, 0xffffffff), data)
    {
      assert data[p..][1..] == data[p + 1..];
      retval := TableUpdate(retval, data[p]);
      p := p + 1;
    }
    return Xor(retval, 0xffffffff);
  }

  lemma {:induction false} RegisterConcat(c: bv32, a: seq<bv8>, b: seq<bv8>)
    ensures Register(c, a + b) == Register(Register(c, a), b)
    decreases |a|
  {
    hide Update;
    if a == [] {
      assert a + b == b;
    } else {
      assert (a + b)[1..] == a[1..] + b;
      RegisterConcat(Update(c, a[0]), a[1..], b);
    }
  }

  /** A checksum can be continued: the result for one part is the start value for the next. */
  lemma ChecksumConcat(a: seq<bv8>, b: seq<bv8>, ival: bv32)
    ensures Checksum(a + b, ival) == Checksum(b, Checksum(a, ival))
  {
    hide Xor, Update;
    RegisterConcat(Xor(ival, 0xffffffff), a, b);
    XorCancel(Register(Xor(ival, 0xffffffff), a), 0xffffffff);
  }

  lemma UpdateInjective(x: bv32, y: bv32, b: bv8)
    requires Update(x, b) == Update(y, b)
    ensures x == y
  {
    hide Xor, Shift8;
    Shift8Injective(Xor(x, b as bv32), Xor(y, b as bv32));
    XorCancel(x, b as bv32);
    XorCancel(y, b as bv32);
  }

  /** Equal bytes never hide a difference that is already in the register. */
  lemma {:induction false} RegisterInjective(x: bv32, y: bv32, s: seq<bv8>)
    requires Register(x, s) == Register(y, s)
    ensures x == y
    decreases |s|
  {
    hide Update;
    if s != [] {
      RegisterInjective(Update(x, s[0]), Update(y, s[0]), s[1..]);
      UpdateInjective(x, y, s[0]);
    }
  }

  function Prepend(b: bv8, w: bv32): bv32 {
    b as bv32 | (w << 8)
  }

  function LowByte(w: bv32): bv8 {
    (w & 0xff) as bv8
  }

  function HighBytes(w: bv32): bv32 {
    w >> 8
  }

  /** At most four bytes as one little-endian word. */
  function Pack(s: seq<bv8>): bv32 {
    if s == [] then 0 else Prepend(s[0], Pack(s[1..]))
  }

  /** The bits of a word above its lowest n bytes are clear. */
  predicate Fits(w: bv32, n: nat)
    requires n <= 4
  {
    match n
    case 0 => w == 0
    case 1 => w & 0xffffff00 == 0
    case 2 => w & 0xffff0000 == 0
    case 3 => w & 0xff000000 == 0
    case _ => true
  }

  predicate TopClear(w: bv32) {
    w & 0xff000000 == 0
  }

  lemma FitsPrepend(b: bv8, w: bv32, n: nat)
    requires n < 4 && Fits(w, n)
    ensures Fits(Prepend(b, w), n + 1)
  {
  }

  lemma PrependInjective(b: bv8, w: bv32, b': bv8, w': bv32)
    requires TopClear(w) && TopClear(w') && Prepend(b, w) == Prepend(b', w')
    ensures b == b' && w == w'
  {
    hide Prepend, TopClear, LowByte, HighBytes;
    LowPart(b, w);
    LowPart(b', w');
    HighPart(b, w);
    HighPart(b', w');
  }

  lemma LowPart(b: bv8, w: bv32)
    ensures LowByte(Prepend(b, w)) == b
  {
  }

  lemma HighPart(b: bv8, w: bv32)
    requires TopClear(w)
    ensures HighBytes(Prepend(b, w)) == w
  {
  }

  lemma FitsWeaken(w: bv32, n: nat)
    requires n <= 3 && Fits(w, n)
    ensures TopClear(w)
  {
    if n == 0 {
    } else if n == 1 {
    } else if n == 2 {
    }
  }

  lemma {:induction false} PackFits(s: seq<bv8>)
    requires |s| <= 4
    ensures Fits(Pack(s), |s|)
  {
    hide Fits, Prepend;
    if s == [] {
      assert Fits(0, 0) by { ZeroFits(); }
    } else {
      PackFits(s[1..]);
      FitsPrepend(s[0], Pack(s[1..]), |s| - 1);
    }
  }

  lemma ZeroFits()
    ensures Fits(0, 0)
  {
  }

  lemma {:induction false} PackInjective(s: seq<bv8>, t: seq<bv8>)
    requires |s| == |t| <= 4 && Pack(s) == Pack(t)
    ensures s == t
  {
    hide Fits, TopClear, Prepend;
    if s != [] {
      var x, y := Pack(s[1..]), Pack(t[1..]);
      PackFits(s[1..]);
      PackFits(t[1..]);
      FitsWeaken(x, |s| - 1);
      FitsWeaken(y, |s| - 1);
      PrependInjective(s[0], x, t[0], y);
      PackInjective(s[1..], t[1..]);
      assert s == [s[0]] + s[1..] && t == [t[0]] + t[1..];
    }
  }

  function ShiftBytes(c: bv32, n: nat): bv32
    decreases n
  {
    if n == 0 then c else ShiftBytes(Shift8(c), n - 1)
  }

  lemma {:induction false} ShiftBytesInjective(x: bv32, y: bv32, n: nat)
    requires ShiftBytes(x, n) == ShiftBytes(y, n)
    ensures x == y
    decreases n
  {
    hide Shift8;
    if n > 0 {
      ShiftBytesInjective(Shift8(x), Shift8(y), n - 1);
      Shift8Injective(x, y);
    }
  }

  lemma XorPrepend(c: bv32, b: bv8, w: bv32)
    requires TopClear(w)
    ensures Xor(Xor(c, b as bv32), w << 8) == Xor(c, Prepend(b, w))
    ensures (w << 8) & 0xff == 0 && (w << 8) >> 8 == w
  {
  }

  lemma UpdateThenXor(c: bv32, b: bv8, w: bv32)
    requires TopClear(w)
    ensures Xor(Update(c, b), w) == Shift8(Xor(c, Prepend(b, w)))
  {
    hide TopClear, Prepend, Xor, Shift8;
    XorPrepend(c, b, w);
    Shift8Xor(Xor(c, b as bv32), w << 8);
    Shift8OfHigh(w << 8);
  }

  lemma XorZero(c: bv32)
    ensures Xor(c, 0) == c
  {
  }

  /** Up to four bytes enter the register as one word before any of it is shifted out. */
  lemma {:induction false} RegisterOfWord(c: bv32, s: seq<bv8>)
    requires |s| <= 4
    ensures Register(c, s) == ShiftBytes(Xor(c, Pack(s)), |s|)
    decreases |s|
  {
    hide Fits, TopClear, Prepend, Xor, Shift8, Update;
    if s == [] {
      XorZero(c);
    } else {
      PackFits(s[1..]);
      FitsWeaken(Pack(s[1..]), |s| - 1);
      RegisterOfWord(Update(c, s[0]), s[1..]);
      UpdateThenXor(c, s[0], Pack(s[1..]));
    }
  }

  lemma XorInjective(x: bv32, y: bv32, z: bv32)
    requires Xor(x, y) == Xor(x, z) || Xor(y, x) == Xor(z, x)
    ensures y == z
  {
  }

  /** Two messages that differ only inside a window of at most four bytes have different
      checksums. */
  lemma BurstDetected(before: seq<bv8>, s: seq<bv8>, t: seq<bv8>, after: seq<bv8>, ival: bv32)
    requires |s| == |t| <= 4 && s != t
    ensures Checksum(before + s + after, ival) != Checksum(before + t + after, ival)
  {
    hide Xor, Update;
    var start := Xor(ival, 0xffffffff);
    var c := Register(start, before);
    RegisterConcat(start, before + s, after);
    RegisterConcat(start, before, s);
    RegisterConcat(start, before + t, after);
    RegisterConcat(start, before, t);
    var x, y := Register(c, s), Register(c, t);
    RegisterOfWord(c, s);
    RegisterOfWord(c, t);
    if Checksum(before + s + after, ival) == Checksum(before + t + after, ival) {
      XorInjective(0xffffffff, Register(x, after), Register(y, after));
      RegisterInjective(x, y, after);
      ShiftBytesInjective(Xor(c, Pack(s)), Xor(c, Pack(t)), |s|);
      XorInjective(c, Pack(s), Pack(t));
      PackInjective(s, t);
    }
  }

  /** The word without its high byte, in the type `unsigned long`. */
  function LowBytes(c: bv32): bv64 {
    (c as bv64) & 0x00ff_ffff
  }

  /** A nonzero word with the low byte alone. */
  predicate IsLowByte(e: bv32) {
    e & 0xffff_ff00 == 0 && e != 0
  }

  /** Eight bit steps spread a difference in the low byte beyond the high byte. */
  lemma LowByteSpreads(e: bv32)
    requires IsLowByte(e)
    ensures LowBytes(Shift8(e)) != 0
  {
  }

  lemma ByteDifference(c: bv32, x: bv8, y: bv8)
    requires x != y
    ensures IsLowByte(Xor(Xor(c, x as bv32), Xor(c, y as bv32)))
  {
  }

  lemma LowBytesDiffer(c: bv32, d: bv32)
    requires LowBytes(Xor(c, d)) != 0
    ensures LowBytes(Xor(c, 0xffffffff)) != LowBytes(Xor(d, 0xffffffff))
  {
  }

  lemma UpdatesDiffer(c: bv32, x: bv8, y: bv8)
    requires x != y
    ensures LowBytes(Xor(Update(c, x), 0xffffffff)) != LowBytes(Xor(Update(c, y), 0xffffffff))
  {
    hide Shift8, Xor, LowBytes, IsLowByte;
    ByteDifference(c, x, y);
    var a, b := Xor(c, x as bv32), Xor(c, y as bv32);
    LowByteSpreads(Xor(a, b));
    Shift8Xor(a, b);
    LowBytesDiffer(Update(c, x), Update(c, y));
  }

  lemma RegisterLast(c: bv32, s: seq<bv8>, x: bv8)
    ensures Register(c, s + [x]) == Update(Register(c, s), x)
  {
    hide Update;
    RegisterConcat(c, s, [x]);
    var r := Register(c, s);
    assert Register(r, [x]) == Register(Update(r, x), []);
  }

  /** Checksums that differ because of the last byte do not differ in their high byte only. */
  lemma LastByteSpreads(s: seq<bv8>, x: bv8, y: bv8, ival: bv32)
    requires x != y
    ensures LowBytes(Checksum(s + [x], ival)) != LowBytes(Checksum(s + [y], ival))
  {
    hide Update, Xor, LowBytes, Register;
    var c := Xor(ival, 0xffffffff);
    RegisterLast(c, s, x);
    RegisterLast(c, s, y);
    UpdatesDiffer(Register(c, s), x, y);
  }

  // ---- the complements -----------------------------------------------------------------------

  /** The bytes of a checksum, lowest first. */
  function LittleEndian(c: bv32): (s: seq<bv8>)
    ensures |s| == 4
  {
    [(c & 0xff) as bv8, ((c >> 8) & 0xff) as bv8, ((c >> 16) & 0xff) as bv8, (c >> 24) as bv8]
  }

  lemma PackOfFour(a: bv8, b: bv8, c: bv8, d: bv8)
    ensures Pack([a, b, c, d]) == Prepend(a, Prepend(b, Prepend(c, Prepend(d, 0))))
  {
    hide Prepend;
    var s := [a, b, c, d];
    assert s[1..] == [b, c, d] && s[1..][1..] == [c, d] && s[1..][1..][1..] == [d];
    assert Pack([d]) == Prepend(d, 0);
    assert Pack([c, d]) == Prepend(c, Pack([c, d][1..])) && [c, d][1..] == [d];
    assert Pack([b, c, d]) == Prepend(b, Pack([b, c, d][1..])) && [b, c, d][1..] == [c, d];
  }

  lemma PrependLittleEndian(c: bv32)
    ensures Prepend((c & 0xff) as bv8, Prepend(((c >> 8) & 0xff) as bv8,
      Prepend(((c >> 16) & 0xff) as bv8, Prepend((c >> 24) as bv8, 0)))) == c
  {
  }

  lemma PackOfLittleEndian(c: bv32)
    ensures Pack(LittleEndian(c)) == c
  {
    PackOfFour((c & 0xff) as bv8, ((c >> 8) & 0xff) as bv8, ((c >> 16) & 0xff) as bv8, (c >> 24) as bv8);
    PrependLittleEndian(c);
    hide Pack, Prepend;
  }

  lemma ComplementCancels(r: bv32)
    ensures Xor(r, Xor(r, 0xffffffff)) == 0xffffffff
  {
  }

  lemma ResidueOfOnes()
    ensures Shift8(0xffffffff) == 0x2DFD1072
    ensures Shift8(0x2DFD1072) == 0xBE26ED00
    ensures Shift8(0xBE26ED00) == 0x00BE26ED
    ensures Shift8(0x00BE26ED) == 0xDEBB20E3
    ensures Xor(0xDEBB20E3, 0xffffffff) == 0x2144DF1C
  {
  }

  /** Behind any message its own checksum, lowest byte first, gives one and the same checksum. */
  lemma Residue(s: seq<bv8>, ival: bv32)
    ensures Checksum(s + LittleEndian(Checksum(s, ival)), ival) == 0x2144DF1C
  {
    hide Xor, Update, Shift8, LittleEndian, Pack;
    var start, c := Xor(ival, 0xffffffff), Checksum(s, ival);
    var r := Register(start, s);
    RegisterConcat(start, s, LittleEndian(c));
    RegisterOfWord(r, LittleEndian(c));
    PackOfLittleEndian(c);
    ComplementCancels(r);
    ResidueOfOnes();
    hide Register;
    FourShifts();
  }

  lemma FourShifts()
    ensures ShiftBytes(0xffffffff, 4) == Shift8(Shift8(Shift8(Shift8(0xffffffff))))
  {
    hide Shift8;
  }

  /** Only the empty register stays as it is when a zero byte comes in. */
  lemma ZeroByteMoves(c: bv32)
    ensures Update(c, 0) == c <==> c == 0
  {
  }

  /** A zero byte in front changes the checksum, for every start value but one, which the
      complement makes an empty register. */
  lemma LeadingZeroDetected(s: seq<bv8>, ival: bv32)
    ensures Checksum([0] + s, ival) == Checksum(s, ival) <==> ival == 0xffffffff
  {
    hide Xor, Update;
    var start := Xor(ival, 0xffffffff);
    assert ([0] + s)[1..] == s;
    ZeroByteMoves(start);
    StartOfOnes(ival);
    if Checksum([0] + s, ival) == Checksum(s, ival) {
      XorInjective(0xffffffff, Register(Update(start, 0), s), Register(start, s));
      RegisterInjective(Update(start, 0), start, s);
    }
  }

  lemma StartOfOnes(ival: bv32)
    ensures Xor(ival, 0xffffffff) == 0 <==> ival == 0xffffffff
  {
  }

  /** The check value of the checksum: that of the digits 1 to 9. */
  lemma CheckValue()
    ensures Checksum([49, 50, 51, 52, 53, 54, 55, 56, 57], 0) == 0xCBF43926
  {
  }
}
