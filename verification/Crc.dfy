/**
  * faad_check_CRC: the table-driven CRC-8 of the DRM standard, over the
  * polynomial x^8 + x^4 + x^3 + x^2 + 1.
  */
module Crc {
  import opened Words
  import opened BitReader

  /** `GPOLY`, octal 0435, without its x^8. */
  const GPOLY: bv8 := 0x1d

  /** One bit into the shift register. */
  function Step(r: bv8, b: bool): bv8 {
    (r << 1) ^ (if (r & 0x80 != 0) != b then GPOLY else 0)
  }

  /** The register after a whole message, one bit at a time. */
  function CrcBits(r: bv8, s: Bits): bv8
    decreases |s|
  {
    if s == [] then r else CrcBits(Step(r, s[0]), s[1..])
  }

  function Place(b: bool, p: bv8): bv8 {
    if b then p else 0
  }

  /** Up to eight bits at the top of a byte. */
  function Pack(s: Bits): bv8 {
    if s == [] then 0 else OnTop(s[0], Pack(s[1..]))
  }

  function OnTop(b: bool, t: bv8): bv8 {
    Place(b, 0x80) | (t >> 1)
  }

  /** Addition of polynomials over two elements. */
  function Add(a: bv8, b: bv8): bv8 {
    a ^ b
  }

  /** Eight zero bits. */
  function Eight(r: bv8): bv8 {
    Step(Step(Step(Step(Step(Step(Step(Step(r, false), false), false), false), false), false), false), false)
  }

  /** `crc_table_G8`, sixteen entries at a time. */
  function CrcTable(i: bv8): bv8 {
    if i < 0x10 then Row0(i)
    else if i < 0x20 then Row1(i)
    else if i < 0x30 then Row2(i)
    else if i < 0x40 then Row3(i)
    else if i < 0x50 then Row4(i)
    else if i < 0x60 then Row5(i)
    else if i < 0x70 then Row6(i)
    else if i < 0x80 then Row7(i)
    else if i < 0x90 then Row8(i)
    else if i < 0xa0 then Row9(i)
    else if i < 0xb0 then Rowa(i)
    else if i < 0xc0 then Rowb(i)
    else if i < 0xd0 then Rowc(i)
    else if i < 0xe0 then Rowd(i)
    else if i < 0xf0 then Rowe(i)
    else Rowf(i)
  }

  function Row0(i: bv8): bv8 {
    match i
    case 0x00 => 0x00 case 0x01 => 0x1d case 0x02 => 0x3a case 0x03 => 0x27
    case 0x04 => 0x74 case 0x05 => 0x69 case 0x06 => 0x4e case 0x07 => 0x53
    case 0x08 => 0xe8 case 0x09 => 0xf5 case 0x0a => 0xd2 case 0x0b => 0xcf
    case 0x0c => 0x9c case 0x0d => 0x81 case 0x0e => 0xa6 case 0x0f => 0xbb
    case _ => 0
  }

  function Row1(i: bv8): bv8 {
    match i
    case 0x10 => 0xcd case 0x11 => 0xd0 case 0x12 => 0xf7 case 0x13 => 0xea
    case 0x14 => 0xb9 case 0x15 => 0xa4 case 0x16 => 0x83 case 0x17 => 0x9e
    case 0x18 => 0x25 case 0x19 => 0x38 case 0x1a => 0x1f case 0x1b => 0x02
    case 0x1c => 0x51 case 0x1d => 0x4c case 0x1e => 0x6b case 0x1f => 0x76
    case _ => 0
  }

  function Row2(i: bv8): bv8 {
    match i
    case 0x20 => 0x87 case 0x21 => 0x9a case 0x22 => 0xbd case 0x23 => 0xa0
    case 0x24 => 0xf3 case 0x25 => 0xee case 0x26 => 0xc9 case 0x27 => 0xd4
    case 0x28 => 0x6f case 0x29 => 0x72 case 0x2a => 0x55 case 0x2b => 0x48
    case 0x2c => 0x1b case 0x2d => 0x06 case 0x2e => 0x21 case 0x2f => 0x3c
    case _ => 0
  }

  function Row3(i: bv8): bv8 {
    match i
    case 0x30 => 0x4a case 0x31 => 0x57 case 0x32 => 0x70 case 0x33 => 0x6d
    case 0x34 => 0x3e case 0x35 => 0x23 case 0x36 => 0x04 case 0x37 => 0x19
    case 0x38 => 0xa2 case 0x39 => 0xbf case 0x3a => 0x98 case 0x3b => 0x85
    case 0x3c => 0xd6 case 0x3d => 0xcb case 0x3e => 0xec case 0x3f => 0xf1
    case _ => 0
  }

  function Row4(i: bv8): bv8 {
    match i
    case 0x40 => 0x13 case 0x41 => 0x0e case 0x42 => 0x29 case 0x43 => 0x34
    case 0x44 => 0x67 case 0x45 => 0x7a case 0x46 => 0x5d case 0x47 => 0x40
    case 0x48 => 0xfb case 0x49 => 0xe6 case 0x4a => 0xc1 case 0x4b => 0xdc
    case 0x4c => 0x8f case 0x4d => 0x92 case 0x4e => 0xb5 case 0x4f => 0xa8
    case _ => 0
  }

  function Row5(i: bv8): bv8 {
    match i
    case 0x50 => 0xde case 0x51 => 0xc3 case 0x52 => 0xe4 case 0x53 => 0xf9
    case 0x54 => 0xaa case 0x55 => 0xb7 case 0x56 => 0x90 case 0x57 => 0x8d
    case 0x58 => 0x36 case 0x59 => 0x2b case 0x5a => 0x0c case 0x5b => 0x11
    case 0x5c => 0x42 case 0x5d => 0x5f case 0x5e => 0x78 case 0x5f => 0x65
    case _ => 0
  }

  function Row6(i: bv8): bv8 {
    match i
    case 0x60 => 0x94 case 0x61 => 0x89 case 0x62 => 0xae case 0x63 => 0xb3
    case 0x64 => 0xe0 case 0x65 => 0xfd case 0x66 => 0xda case 0x67 => 0xc7
    case 0x68 => 0x7c case 0x69 => 0x61 case 0x6a => 0x46 case 0x6b => 0x5b
    case 0x6c => 0x08 case 0x6d => 0x15 case 0x6e => 0x32 case 0x6f => 0x2f
    case _ => 0
  }

  function Row7(i: bv8): bv8 {
    match i
    case 0x70 => 0x59 case 0x71 => 0x44 case 0x72 => 0x63 case 0x73 => 0x7e
    case 0x74 => 0x2d case 0x75 => 0x30 case 0x76 => 0x17 case 0x77 => 0x0a
    case 0x78 => 0xb1 case 0x79 => 0xac case 0x7a => 0x8b case 0x7b => 0x96
    case 0x7c => 0xc5 case 0x7d => 0xd8 case 0x7e => 0xff case 0x7f => 0xe2
    case _ => 0
  }

  function Row8(i: bv8): bv8 {
    match i
    case 0x80 => 0x26 case 0x81 => 0x3b case 0x82 => 0x1c case 0x83 => 0x01
    case 0x84 => 0x52 case 0x85 => 0x4f case 0x86 => 0x68 case 0x87 => 0x75
    case 0x88 => 0xce case 0x89 => 0xd3 case 0x8a => 0xf4 case 0x8b => 0xe9
    case 0x8c => 0xba case 0x8d => 0xa7 case 0x8e => 0x80 case 0x8f => 0x9d
    case _ => 0
  }

  function Row9(i: bv8): bv8 {
    match i
    case 0x90 => 0xeb case 0x91 => 0xf6 case 0x92 => 0xd1 case 0x93 => 0xcc
    case 0x94 => 0x9f case 0x95 => 0x82 case 0x96 => 0xa5 case 0x97 => 0xb8
    case 0x98 => 0x03 case 0x99 => 0x1e case 0x9a => 0x39 case 0x9b => 0x24
    case 0x9c => 0x77 case 0x9d => 0x6a case 0x9e => 0x4d case 0x9f => 0x50
    case _ => 0
  }

  function Rowa(i: bv8): bv8 {
    match i
    case 0xa0 => 0xa1 case 0xa1 => 0xbc case 0xa2 => 0x9b case 0xa3 => 0x86
    case 0xa4 => 0xd5 case 0xa5 => 0xc8 case 0xa6 => 0xef case 0xa7 => 0xf2
    case 0xa8 => 0x49 case 0xa9 => 0x54 case 0xaa => 0x73 case 0xab => 0x6e
    case 0xac => 0x3d case 0xad => 0x20 case 0xae => 0x07 case 0xaf => 0x1a
    case _ => 0
  }

  function Rowb(i: bv8): bv8 {
    match i
    case 0xb0 => 0x6c case 0xb1 => 0x71 case 0xb2 => 0x56 case 0xb3 => 0x4b
    case 0xb4 => 0x18 case 0xb5 => 0x05 case 0xb6 => 0x22 case 0xb7 => 0x3f
    case 0xb8 => 0x84 case 0xb9 => 0x99 case 0xba => 0xbe case 0xbb => 0xa3
    case 0xbc => 0xf0 case 0xbd => 0xed case 0xbe => 0xca case 0xbf => 0xd7
    case _ => 0
  }

  function Rowc(i: bv8): bv8 {
    match i
    case 0xc0 => 0x35 case 0xc1 => 0x28 case 0xc2 => 0x0f case 0xc3 => 0x12
    case 0xc4 => 0x41 case 0xc5 => 0x5c case 0xc6 => 0x7b case 0xc7 => 0x66
    case 0xc8 => 0xdd case 0xc9 => 0xc0 case 0xca => 0xe7 case 0xcb => 0xfa
    case 0xcc => 0xa9 case 0xcd => 0xb4 case 0xce => 0x93 case 0xcf => 0x8e
    case _ => 0
  }

  function Rowd(i: bv8): bv8 {
    match i
    case 0xd0 => 0xf8 case 0xd1 => 0xe5 case 0xd2 => 0xc2 case 0xd3 => 0xdf
    case 0xd4 => 0x8c case 0xd5 => 0x91 case 0xd6 => 0xb6 case 0xd7 => 0xab
    case 0xd8 => 0x10 case 0xd9 => 0x0d case 0xda => 0x2a case 0xdb => 0x37
    case 0xdc => 0x64 case 0xdd => 0x79 case 0xde => 0x5e case 0xdf => 0x43
    case _ => 0
  }

  function Rowe(i: bv8): bv8 {
    match i
    case 0xe0 => 0xb2 case 0xe1 => 0xaf case 0xe2 => 0x88 case 0xe3 => 0x95
    case 0xe4 => 0xc6 case 0xe5 => 0xdb case 0xe6 => 0xfc case 0xe7 => 0xe1
    case 0xe8 => 0x5a case 0xe9 => 0x47 case 0xea => 0x60 case 0xeb => 0x7d
    case 0xec => 0x2e case 0xed => 0x33 case 0xee => 0x14 case 0xef => 0x09
    case _ => 0
  }

  function Rowf(i: bv8): bv8 {
    match i
    case 0xf0 => 0x7f case 0xf1 => 0x62 case 0xf2 => 0x45 case 0xf3 => 0x58
    case 0xf4 => 0x0b case 0xf5 => 0x16 case 0xf6 => 0x31 case 0xf7 => 0x2c
    case 0xf8 => 0x97 case 0xf9 => 0x8a case 0xfa => 0xad case 0xfb => 0xb0
    case 0xfc => 0xe3 case 0xfd => 0xfe case 0xfe => 0xd9 case 0xff => 0xc4
    case _ => 0
  }

  lemma Row0IsEight(i: bv8)
    requires 0x00 <= i <= 0x0f
    ensures Row0(i) == Eight(i)
  {
  }

  lemma Row1IsEight(i: bv8)
    requires 0x10 <= i <= 0x1f
    ensures Row1(i) == Eight(i)
  {
  }

  lemma Row2IsEight(i: bv8)
    requires 0x20 <= i <= 0x2f
    ensures Row2(i) == Eight(i)
  {
  }

  lemma Row3IsEight(i: bv8)
    requires 0x30 <= i <= 0x3f
    ensures Row3(i) == Eight(i)
  {
  }

  lemma Row4IsEight(i: bv8)
    requires 0x40 <= i <= 0x4f
    ensures Row4(i) == Eight(i)
  {
  }

  lemma Row5IsEight(i: bv8)
    requires 0x50 <= i <= 0x5f
    ensures Row5(i) == Eight(i)
  {
  }

  lemma Row6IsEight(i: bv8)
    requires 0x60 <= i <= 0x6f
    ensures Row6(i) == Eight(i)
  {
  }

  lemma Row7IsEight(i: bv8)
    requires 0x70 <= i <= 0x7f
    ensures Row7(i) == Eight(i)
  {
  }

  lemma Row8IsEight(i: bv8)
    requires 0x80 <= i <= 0x8f
    ensures Row8(i) == Eight(i)
  {
  }

  lemma Row9IsEight(i: bv8)
    requires 0x90 <= i <= 0x9f
    ensures Row9(i) == Eight(i)
  {
  }

  lemma RowaIsEight(i: bv8)
    requires 0xa0 <= i <= 0xaf
    ensures Rowa(i) == Eight(i)
  {
  }

  lemma RowbIsEight(i: bv8)
    requires 0xb0 <= i <= 0xbf
    ensures Rowb(i) == Eight(i)
  {
  }

  lemma RowcIsEight(i: bv8)
    requires 0xc0 <= i <= 0xcf
    ensures Rowc(i) == Eight(i)
  {
  }

  lemma RowdIsEight(i: bv8)
    requires 0xd0 <= i <= 0xdf
    ensures Rowd(i) == Eight(i)
  {
  }

  lemma RoweIsEight(i: bv8)
    requires 0xe0 <= i <= 0xef
    ensures Rowe(i) == Eight(i)
  {
  }

  lemma RowfIsEight(i: bv8)
    requires 0xf0 <= i <= 0xff
    ensures Rowf(i) == Eight(i)
  {
  }

  /** An entry is what eight zero bits make of its index. */
  lemma TableIsEight(i: bv8)
    ensures CrcTable(i) == Eight(i)
  {
    hide Row0, Row1, Row2, Row3, Row4, Row5, Row6, Row7, Row8, Row9, Rowa, Rowb, Rowc, Rowd, Rowe, Rowf, Eight;
    if i < 0x10 { Row0IsEight(i); }
    else if i < 0x20 { Row1IsEight(i); }
    else if i < 0x30 { Row2IsEight(i); }
    else if i < 0x40 { Row3IsEight(i); }
    else if i < 0x50 { Row4IsEight(i); }
    else if i < 0x60 { Row5IsEight(i); }
    else if i < 0x70 { Row6IsEight(i); }
    else if i < 0x80 { Row7IsEight(i); }
    else if i < 0x90 { Row8IsEight(i); }
    else if i < 0xa0 { Row9IsEight(i); }
    else if i < 0xb0 { RowaIsEight(i); }
    else if i < 0xc0 { RowbIsEight(i); }
    else if i < 0xd0 { RowcIsEight(i); }
    else if i < 0xe0 { RowdIsEight(i); }
    else if i < 0xf0 { RoweIsEight(i); }
    else { RowfIsEight(i); }
  }

  function ZeroBits(r: bv8, k: nat): bv8
    decreases k
  {
    if k == 0 then r else ZeroBits(Step(r, false), k - 1)
  }

  /** The places below the top k. */
  function Below(k: nat): bv8 {
    if k == 0 then 0xff else Below(k - 1) >> 1
  }

  lemma {:induction false} PackIsHigh(s: Bits)
    ensures Pack(s) & Below(|s|) == 0
  {
    if s != [] {
      PackIsHigh(s[1..]);
      ShiftedApart(Pack(s[1..]), Below(|s| - 1), s[0]);
    }
  }

  lemma ShiftedApart(t: bv8, m: bv8, b: bool)
    requires t & m == 0
    ensures OnTop(b, t) & (m >> 1) == 0
  {
  }

  lemma LowestBelow(k: nat)
    requires k <= 7
    ensures Below(k) & 1 == 1
  {
    assert Below(1) == 0x7f;
    assert Below(2) == 0x3f;
    assert Below(3) == 0x1f;
    assert Below(4) == 0x0f;
    assert Below(5) == 0x07;
    assert Below(6) == 0x03;
    assert Below(7) == 0x01;
  }

  lemma LowestClear(t: bv8, m: bv8)
    requires t & m == 0 && m & 1 == 1
    ensures t & 1 == 0
  {
  }

  /** A message bit is a bit added at the top; what is added below moves up. */
  lemma Absorb(r: bv8, b: bool, t: bv8)
    requires t & 1 == 0
    ensures Add(Step(r, b), t) == Step(Add(r, OnTop(b, t)), false)
  {
  }

  lemma RoomBelow(s: Bits)
    requires |s| <= 7
    ensures Pack(s) & 1 == 0
  {
    hide Pack;
    PackIsHigh(s);
    LowestBelow(|s|);
    LowestClear(Pack(s), Below(|s|));
  }

  lemma AddZeros(r: bv8)
    ensures Add(r, 0) == r
  {
  }

  /** Up to eight message bits are as many zero bits on the register with them added in. */
  lemma {:induction false} AddedIn(r: bv8, s: Bits)
    requires |s| <= 8
    ensures CrcBits(r, s) == ZeroBits(Add(r, Pack(s)), |s|)
    decreases |s|
  {
    hide Step, OnTop, Add, Below;
    if s == [] {
      AddZeros(r);
    } else {
      AddedIn(Step(r, s[0]), s[1..]);
      RoomBelow(s[1..]);
      Absorb(r, s[0], Pack(s[1..]));
    }
  }

  lemma EightZeros(r: bv8)
    ensures ZeroBits(r, 8) == Eight(r)
  {
    hide Step;
    var r2 := Step(Step(r, false), false);
    var r4 := Step(Step(r2, false), false);
    var r6 := Step(Step(r4, false), false);
    assert ZeroBits(r6, 2) == Eight(r);
    assert ZeroBits(r4, 4) == ZeroBits(r6, 2);
    assert ZeroBits(r2, 6) == ZeroBits(r4, 4);
    assert ZeroBits(r, 8) == ZeroBits(r2, 6);
  }

  /** One table look-up is eight bits of the message. */
  lemma TableStep(r: bv8, s: Bits)
    requires |s| == 8
    ensures CrcBits(r, s) == CrcTable(Add(r, Pack(s)))
  {
    hide *;
    AddedIn(r, s);
    EightZeros(Add(r, Pack(s)));
    TableIsEight(Add(r, Pack(s)));
  }

  lemma {:induction false} CrcConcat(r: bv8, a: Bits, b: Bits)
    ensures CrcBits(r, a + b) == CrcBits(CrcBits(r, a), b)
    decreases |a|
  {
    if a == [] {
      assert a + b == b;
    } else {
      hide Step;
      assert (a + b)[1..] == a[1..] + b;
      CrcConcat(Step(r, a[0]), a[1..], b);
    }
  }

  // ----- faad_check_CRC

  /** The low eight bits of a number as a byte. */
  function ByteOf(v: nat): bv8 {
    Pack(Low(v, 8))
  }

  lemma StreamSplit(buffer: seq<Byte>, p: nat, n: nat, k: nat)
    ensures Stream(buffer, p, n + k) == Stream(buffer, p, n) + Stream(buffer, p + n, k)
  {
    hide StreamBit;
    var s, t := Stream(buffer, p, n + k), Stream(buffer, p, n) + Stream(buffer, p + n, k);
    forall j | 0 <= j < n + k ensures s[j] == t[j] {
      if j >= n {
        assert p + n + (j - n) == p + j;
      }
    }
  }

  /** `faad_check_CRC`: the CRC is stored first, inverted; 28 is the error code for a mismatch. */
  method CheckCrc(ld: BitFile, len: nat) returns (error: nat)
    requires ld.Valid()
    modifies ld
    ensures ld.Valid() && ld.Pos() == 8 + len
    ensures error ==
      if CrcBits(0xff, Stream(ld.buffer, 8, len)) == !Pack(Stream(ld.buffer, 0, 8)) then 0 else 28
  {
    hide *;
    ld.RewindBits();
    ghost var buffer := ld.buffer;
    var r: bv8 := 0xff;
    ld.NextStream(8);
    LowOfValue(ld.Next(8));
    ByteOfIs(ld.Next(8));
    var stored := ld.GetBits(8);
    var crc := !ByteOf(stored);
    var bytes, rem := len / 8, len % 8;
    StartOfMessage(r, buffer);
    for done := 0 to bytes
      invariant ld.Valid() && ld.Pos() == 8 + 8 * done
      invariant r == CrcBits(0xff, Stream(buffer, 8, 8 * done))
    {
      ld.NextStream(8);
      ByteOfIs(ld.Next(8));
      TableStep(r, ld.Next(8));
      StreamSplit(buffer, 8, 8 * done, 8);
      CrcConcat(0xff, Stream(buffer, 8, 8 * done), Stream(buffer, 8 + 8 * done, 8));
      var b := ld.GetBits(8);
      r := CrcTable(Add(r, ByteOf(b)));
    }
    for done := 0 to rem
      invariant ld.Valid() && ld.Pos() == 8 + 8 * bytes + done
      invariant r == CrcBits(0xff, Stream(buffer, 8, 8 * bytes + done))
    {
      NextBit(buffer, 8 * bytes + done);
      var b := ld.Get1Bit();
      r := Step(r, b == 1);
    }
    error := if r != crc then 28 else 0;
  }

  lemma StartOfMessage(r: bv8, buffer: seq<Byte>)
    ensures CrcBits(r, Stream(buffer, 8, 0)) == r
  {
  }

  lemma ByteOfIs(s: Bits)
    requires |s| == 8
    ensures ByteOf(Value(s)) == Pack(s)
  {
    LowOfValue(s);
  }

  lemma NextBit(buffer: seq<Byte>, n: nat)
    ensures CrcBits(0xff, Stream(buffer, 8, n + 1)) == Step(CrcBits(0xff, Stream(buffer, 8, n)), StreamBit(buffer, 8 + n))
  {
    hide Step, StreamBit;
    StreamSplit(buffer, 8, n, 1);
    var b := Stream(buffer, 8 + n, 1);
    CrcConcat(0xff, Stream(buffer, 8, n), b);
    assert b[0] == StreamBit(buffer, 8 + n + 0);
    assert b[1..] == [];
  }

  // ----- the register against long division

  /** x^8 + x^4 + x^3 + x^2 + 1 without its first term, highest coefficient first. */
  function Generator(): (g: Bits)
    ensures |g| == 8
  {
    [false, false, false, true] + [true, true, false, true]
  }

  /** Polynomials over two elements, highest coefficient first. */
  function Plus(a: Bits, b: Bits): (c: Bits)
    requires |a| == |b|
    ensures |c| == |a|
  {
    seq(|a|, i requires 0 <= i < |a| => a[i] != b[i])
  }

  /** What is left of p after long division by the generator. */
  function Residue(p: Bits): (r: Bits)
    requires |p| >= 8
    ensures |r| == 8
    decreases |p|
  {
    if |p| == 8 then p
    else Residue(if p[0] then Plus(p[1..9], Generator()) + p[9..] else p[1..])
  }

  /** One bit into a register of eight bits. */
  function StepBits(a: Bits, b: bool): (c: Bits)
    requires |a| == 8
    ensures |c| == 8
  {
    Plus(a[1..] + [false], if a[0] != b then Generator() else Zeros(8))
  }

  /** The message followed by eight zeros, with a added to its start. */
  function Dividend(a: Bits, m: Bits): (p: Bits)
    requires |a| == 8
    ensures |p| == |m| + 8
  {
    Plus(m + Zeros(8), a + Zeros(|m|))
  }

  lemma DividendStep(a: Bits, m: Bits)
    requires |a| == 8 && m != []
    ensures var p := Dividend(a, m);
            p[0] == (a[0] != m[0])
            && (if p[0] then Plus(p[1..9], Generator()) + p[9..] else p[1..]) == Dividend(StepBits(a, m[0]), m[1..])
  {
    hide Generator;
    var p := Dividend(a, m);
    var q := if p[0] then Plus(p[1..9], Generator()) + p[9..] else p[1..];
    var q' := Dividend(StepBits(a, m[0]), m[1..]);
  }

  /** Eight bits as a byte, place by place. */
  function Byte8(a: bool, b: bool, c: bool, d: bool, e: bool, f: bool, g: bool, h: bool): bv8 {
    Place(a, 0x80) | Place(b, 0x40) | Place(c, 0x20) | Place(d, 0x10)
      | Place(e, 0x08) | Place(f, 0x04) | Place(g, 0x02) | Place(h, 0x01)
  }

  lemma PackIs(s: Bits)
    requires |s| == 8
    ensures Pack(s) == Byte8(s[0], s[1], s[2], s[3], s[4], s[5], s[6], s[7])
  {
    Tower(s[0], s[1], s[2], s[3], s[4], s[5], s[6], s[7]);
    hide OnTop, Byte8;
    assert s[7..][1..] == [];
    assert Pack(s[7..]) == OnTop(s[7], 0);
    assert Pack(s[6..]) == OnTop(s[6], Pack(s[7..]));
    assert Pack(s[5..]) == OnTop(s[5], Pack(s[6..]));
    assert Pack(s[4..]) == OnTop(s[4], Pack(s[5..]));
    assert Pack(s[3..]) == OnTop(s[3], Pack(s[4..]));
    assert Pack(s[2..]) == OnTop(s[2], Pack(s[3..]));
    assert Pack(s[1..]) == OnTop(s[1], Pack(s[2..]));
  }

  lemma Tower(a: bool, b: bool, c: bool, d: bool, e: bool, f: bool, g: bool, h: bool)
    ensures OnTop(a, OnTop(b, OnTop(c, OnTop(d, OnTop(e, OnTop(f, OnTop(g, OnTop(h, 0))))))))
         == Byte8(a, b, c, d, e, f, g, h)
  {
  }

  lemma Shifted(a: bool, b: bool, c: bool, d: bool, e: bool, f: bool, g: bool, h: bool, x: bool)
    ensures Step(Byte8(a, b, c, d, e, f, g, h), x)
         == var t := a != x; Byte8(b, c, d, e != t, f != t, g != t, h, t)
  {
  }

  lemma PackStep(a: Bits, x: bool)
    requires |a| == 8
    ensures Pack(StepBits(a, x)) == Step(Pack(a), x)
  {
    hide *;
    StepBitsAre(a, x);
    Shifted(a[0], a[1], a[2], a[3], a[4], a[5], a[6], a[7], x);
    PackIs(a);
    PackIs(StepBits(a, x));
  }

  lemma StepBitsAre(a: Bits, x: bool)
    requires |a| == 8
    ensures var c, t := StepBits(a, x), a[0] != x;
            && c[0] == a[1] && c[1] == a[2] && c[2] == a[3] && c[6] == a[7] && c[7] == t
            && c[3] == (a[4] != t) && c[4] == (a[5] != t) && c[5] == (a[6] != t)
  {
    var s := a[1..] + [false];
    var g := if a[0] != x then Generator() else Zeros(8);
    assert s[0] == a[1] && s[1] == a[2] && s[2] == a[3] && s[3] == a[4];
    assert s[4] == a[5] && s[5] == a[6] && s[6] == a[7] && !s[7];
    assert StepBits(a, x) == Plus(s, g);
  }

  lemma {:induction false} RegisterDivides(a: Bits, m: Bits)
    requires |a| == 8
    ensures CrcBits(Pack(a), m) == Pack(Residue(Dividend(a, m)))
    decreases |m|
  {
    hide Step, StepBits, Pack, Dividend, Generator;
    if m == [] {
      DividendOfNothing(a);
    } else {
      DividendStep(a, m);
      PackStep(a, m[0]);
      RegisterDivides(StepBits(a, m[0]), m[1..]);
    }
  }

  lemma DividendOfNothing(a: Bits)
    requires |a| == 8
    ensures Dividend(a, []) == a
  {
  }

  /** The check passes exactly when the stored CRC, inverted, is the residue of the message, its first byte inverted. */
  lemma CrcIsResidue(m: Bits)
    ensures CrcBits(0xff, m) == Pack(Residue(Dividend(Ones(), m)))
  {
    PackIs(Ones());
    AllOnes();
    RegisterDivides(Ones(), m);
  }

  function Ones(): (a: Bits)
    ensures |a| == 8 && forall i :: 0 <= i < 8 ==> a[i]
  {
    seq(8, i => true)
  }

  lemma AllOnes()
    ensures Byte8(true, true, true, true, true, true, true, true) == 0xff
  {
  }

  // ----- what the check detects

  /** The register is linear in its state and its input. */
  lemma {:induction false} CrcAdds(r: bv8, q: bv8, s: Bits, t: Bits)
    requires |s| == |t|
    ensures Add(CrcBits(r, s), CrcBits(q, t)) == CrcBits(Add(r, q), Plus(s, t))
    decreases |s|
  {
    hide Step, Add;
    if s != [] {
      StepAdds(r, q, s[0], t[0]);
      CrcAdds(Step(r, s[0]), Step(q, t[0]), s[1..], t[1..]);
      assert Plus(s, t)[1..] == Plus(s[1..], t[1..]);
    }
  }

  lemma StepAdds(r: bv8, q: bv8, a: bool, b: bool)
    ensures Add(Step(r, a), Step(q, b)) == Step(Add(r, q), a != b)
  {
    var x, y := Feedback(Top(r) != a), Feedback(Top(q) != b);
    StepParts(r, a);
    StepParts(q, b);
    StepParts(Add(r, q), a != b);
    Interchange(Double(r), x, Double(q), y);
    DoubleAdds(r, q);
    TopAdds(r, q);
    FeedbackAdds(Top(r) != a, Top(q) != b);
    hide Step, Add, Double, Feedback, Top;
  }

  predicate Top(r: bv8) {
    r & 0x80 != 0
  }

  function Double(r: bv8): bv8 {
    r << 1
  }

  function Feedback(t: bool): bv8 {
    if t then GPOLY else 0
  }

  lemma StepParts(r: bv8, b: bool)
    ensures Step(r, b) == Add(Double(r), Feedback(Top(r) != b))
  {
  }

  lemma Interchange(a: bv8, b: bv8, c: bv8, d: bv8)
    ensures Add(Add(a, b), Add(c, d)) == Add(Add(a, c), Add(b, d))
  {
    hide Add;
    Regroup(a, b, Add(c, d));
    Regroup(b, c, d);
    Swap(b, c);
    Regroup(c, b, d);
    Regroup(a, c, Add(b, d));
  }

  lemma Regroup(a: bv8, b: bv8, c: bv8)
    ensures Add(Add(a, b), c) == Add(a, Add(b, c))
  {
  }

  lemma Swap(a: bv8, b: bv8)
    ensures Add(a, b) == Add(b, a)
  {
  }

  lemma DoubleAdds(r: bv8, q: bv8)
    ensures Double(Add(r, q)) == Add(Double(r), Double(q))
  {
  }

  lemma TopAdds(r: bv8, q: bv8)
    ensures Top(Add(r, q)) == (Top(r) != Top(q))
  {
  }

  lemma FeedbackAdds(s: bool, t: bool)
    ensures Feedback(s != t) == Add(Feedback(s), Feedback(t))
  {
  }

  /** Zero bits never clear a register. */
  lemma {:induction false} ZerosKeep(r: bv8, k: nat)
    requires r != 0
    ensures ZeroBits(r, k) != 0
    decreases k
  {
    if k > 0 {
      StepKeeps(r);
      hide Step;
      ZerosKeep(Step(r, false), k - 1);
    }
  }

  lemma StepKeeps(r: bv8)
    requires r != 0
    ensures Step(r, false) != 0
  {
  }

  lemma {:induction false} ZeroMessage(r: bv8, k: nat)
    ensures CrcBits(r, Zeros(k)) == ZeroBits(r, k)
    decreases k
  {
    if k > 0 {
      hide Step;
      assert Zeros(k)[1..] == Zeros(k - 1);
      ZeroMessage(Step(r, false), k - 1);
    }
  }

  lemma {:induction false} ZeroStays(k: nat)
    ensures ZeroBits(0, k) == 0
  {
    if k > 0 {
      ZeroStays(k - 1);
    }
  }

  lemma {:induction false} PackNonzero(s: Bits, j: nat)
    requires |s| <= 8 && j < |s| && s[j]
    ensures Pack(s) != 0
    decreases |s|
  {
    if j > 0 {
      PackNonzero(s[1..], j - 1);
      RoomBelow(s[1..]);
      OnTopNonzero(s[0], Pack(s[1..]));
    } else {
      TopNonzero(Pack(s[1..]));
    }
  }

  lemma OnTopNonzero(b: bool, t: bv8)
    requires t != 0 && t & 1 == 0
    ensures OnTop(b, t) != 0
  {
  }

  lemma TopNonzero(t: bv8)
    ensures OnTop(true, t) != 0
  {
  }

  /** A burst of at most eight bits, not all zero, leaves the register different. */
  lemma BurstShows(e: Bits, j: nat, before: nat, after: nat)
    requires |e| <= 8 && j < |e| && e[j]
    ensures CrcBits(0, Zeros(before) + e + Zeros(after)) != 0
  {
    hide *;
    CrcConcat(0, Zeros(before) + e, Zeros(after));
    CrcConcat(0, Zeros(before), e);
    ZeroMessage(0, before);
    ZeroStays(before);
    AddedIn(0, e);
    PackNonzero(e, j);
    ZeroAdds(Pack(e));
    ZerosKeep(Pack(e), |e|);
    ZeroMessage(ZeroBits(Pack(e), |e|), after);
    ZerosKeep(ZeroBits(Pack(e), |e|), after);
  }

  lemma PlusIs(m: Bits, m': Bits)
    requires |m| == |m'|
    ensures |Plus(m, m')| == |m| && forall i :: 0 <= i < |m| ==> Plus(m, m')[i] == (m[i] != m'[i])
  {
  }

  lemma ZeroAdds(r: bv8)
    ensures Add(0, r) == r
  {
  }

  lemma SelfAdds(r: bv8)
    ensures Add(r, r) == 0
  {
  }

  /**
    * Every burst is detected: two messages of one length that have the same CRC and
    * differ only within eight consecutive bits are the same message.
    */
  lemma BurstDetected(m: Bits, m': Bits, at: nat, n: nat)
    requires |m| == |m'| && n <= 8 && at + n <= |m|
    requires forall i :: 0 <= i < |m| && !(at <= i < at + n) ==> m[i] == m'[i]
    requires CrcBits(0xff, m) == CrcBits(0xff, m')
    ensures m == m'
  {
    hide *;
    CrcAdds(0xff, 0xff, m, m');
    SelfAdds(0xff);
    SelfAdds(CrcBits(0xff, m));
    PlusIs(m, m');
    var d := Plus(m, m');
    var e := d[at..at + n];
    assert d == Zeros(at) + e + Zeros(|m| - at - n);
    forall i | 0 <= i < |m| ensures m[i] == m'[i] {
      if at <= i < at + n && d[i] {
        BurstShows(e, i - at, at, |m| - at - n);
      }
    }
  }
}
