/**
  The forward bit reader: two 32-bit words in front of a byte buffer, refined
  to one position in the big-endian bits of the buffer followed by zeros.
 */
module BitReader {
  import opened Words

  type Byte = x: nat | x < 0x100

  /** Bit p of the stream a buffer holds: most significant bit of byte 0 first, zeros after the end. */
  predicate StreamBit(buffer: seq<Byte>, p: nat) {
    p / 8 < |buffer| && Bit(buffer[p / 8], 7 - p % 8)
  }

  /** The n stream bits from position p on. */
  function Stream(buffer: seq<Byte>, p: nat, n: nat): (s: Bits)
    ensures |s| == n
  {
    seq(n, (j: nat) => StreamBit(buffer, p + j))
  }

  function ByteAt(buffer: seq<Byte>, k: nat): Byte {
    if k < |buffer| then buffer[k] else 0
  }

  function Dword(a: nat, b: nat, c: nat, d: nat): nat {
    0x100_0000 * a + 0x1_0000 * b + 0x100 * c + d
  }

  /** `getdword`: four bytes, the first one highest. */
  function GetDword(buffer: seq<Byte>, at: nat): nat
    requires at + 4 <= |buffer|
  {
    Dword(buffer[at], buffer[at + 1], buffer[at + 2], buffer[at + 3])
  }

  /** `getdword_n`: the first n bytes only, the others read as zero. */
  function GetDwordN(buffer: seq<Byte>, at: nat, n: nat): nat
    requires n < 4 && (n > 0 ==> at + n <= |buffer|)
  {
    if n == 0 then 0
    else Dword(buffer[at], if n > 1 then buffer[at + 1] else 0, if n > 2 then buffer[at + 2] else 0, 0)
  }

  /** Word k of the stream, whether the buffer holds all, part or none of it. */
  function WordAt(buffer: seq<Byte>, k: nat): (w: nat)
    ensures w < WORD
  {
    Dword(ByteAt(buffer, 4 * k), ByteAt(buffer, 4 * k + 1), ByteAt(buffer, 4 * k + 2), ByteAt(buffer, 4 * k + 3))
  }

  lemma DwordBit(a: nat, b: nat, c: nat, d: nat, i: nat)
    requires a < 0x100 && b < 0x100 && c < 0x100 && d < 0x100 && i < 32
    ensures Bit(Dword(a, b, c, d), i) ==
            Bit(if i < 8 then d else if i < 16 then c else if i < 24 then b else a, i % 8)
  {
    hide Bit;
    HalfPairBit(0x100 * a + b, 0x100 * c + d, i);
    BytePairBit(a, b, i % 16);
    BytePairBit(c, d, i % 16);
  }

  lemma Div8(m: nat, r: nat)
    requires r < 8
    ensures (8 * m + r) / 8 == m && (8 * m + r) % 8 == r
  {
  }

  lemma BytePosition(k: nat, i: nat)
    requires i < 32
    ensures var p := 32 * k + 31 - i; p / 8 == 4 * k + (31 - i) / 8 && p % 8 == 7 - i % 8
  {
    var j, m := (31 - i) / 8, i % 8;
    assert 31 - i == 8 * j + (7 - m);
    Div8(4 * k + j, 7 - m);
  }

  lemma WordBit(buffer: seq<Byte>, k: nat, i: nat)
    requires i < 32
    ensures Bit(WordAt(buffer, k), i) == StreamBit(buffer, 32 * k + 31 - i)
  {
    hide Bit;
    var a: nat, b: nat := ByteAt(buffer, 4 * k), ByteAt(buffer, 4 * k + 1);
    var c: nat, d: nat := ByteAt(buffer, 4 * k + 2), ByteAt(buffer, 4 * k + 3);
    DwordBit(a, b, c, d, i);
    BytePosition(k, i);
    HighClear(0, 0, i % 8);
  }

  /** What the reader keeps of a buffer still to be fetched, in bytes. */
  function BytesFrom(size: nat, words: nat): nat {
    if 4 * words <= size then size - 4 * words else 0
  }

  predicate ByteAligned(p: nat) {
    p % 8 == 0
  }

  /** `(32 - ld->bits_left) & 0x7` */
  function Remainder(left: nat): (r: nat)
    requires left <= 32
    ensures r < 8
  {
    (32 - left) % 8
  }

  lemma NoRemainder()
    ensures Remainder(0) == 0
  {
  }

  /** How far the position p = 32 t - left is behind the next byte boundary. */
  lemma AlignedBy(p: nat, t: nat, left: nat)
    requires t >= 1 && left <= 32 && p == 32 * t - left
    ensures var r := Remainder(left); ByteAligned(if r == 0 then p else p + (8 - r))
  {
    var r := Remainder(left);
    var m := 4 * (t - 1) + (32 - left) / 8;
    assert p == 8 * m + r;
    Div8(m, r);
    Div8(m + 1, 0);
  }

  /** A fetch of what is left of a word reads that word of the stream. */
  lemma Fetched(buffer: seq<Byte>, k: nat)
    ensures 4 * k + 4 <= |buffer| ==> GetDword(buffer, 4 * k) == WordAt(buffer, k)
    ensures 4 * k + 4 > |buffer| ==> GetDwordN(buffer, 4 * k, BytesFrom(|buffer|, k)) == WordAt(buffer, k)
  {
  }

  /** Bit i of the low n bits of a followed by the high `rest` bits of b. */
  lemma TwoWordBit(a: nat, b: nat, n: nat, rest: nat, i: nat)
    requires b < WORD && rest <= 32 && n + rest <= 32 && i < n + rest
    ensures Bit(Or(Shl(And(a, Pow2(n) - 1), rest), Shr(b, 32 - rest)), i)
         == if i >= rest then Bit(a, i - rest) else Bit(b, i + 32 - rest)
  {
    hide Bit, And, Or, Shl, Shr, Scale;
    var h := And(a, Pow2(n) - 1);
    OrBit(Shl(h, rest), Shr(b, 32 - rest), i);
    ShlBit(h, rest, i);
    ShrBit(b, 32 - rest, i);
    PowWord();
    if i >= rest {
      AndBit(a, Pow2(n) - 1, i - rest);
      MaskBit(n, i - rest);
      HighClear(b, 32, i + 32 - rest);
    }
  }

  /** What is left of one word and what is taken of the next stay below 2^bits. */
  lemma AcrossBelow(a: nat, b: nat, left: nat, bits: nat)
    requires left < bits <= 32 && b < WORD
    ensures Or(Shl(And(a, Pow2(left) - 1), bits - left), Shr(b, 32 - (bits - left))) < Pow2(bits)
  {
    hide *;
    var rest := bits - left;
    var h := And(a, Pow2(left) - 1);
    PowWord();
    AndBelow(a, Pow2(left) - 1);
    ScaleBelow(h, left, rest);
    ShlBelow(h, rest);
    ShrBelow(b, rest, 32 - rest);
    PowMono(rest, bits);
    OrBelow(Shl(h, rest), Shr(b, 32 - rest), bits);
  }


  lemma OneBit(b: bool)
    ensures Value([b]) == if b then 1 else 0
  {
    assert Value([b][..0]) == 0;
  }

  class BitFile {
    var bufa: nat
    var bufb: nat
    var bitsLeft: nat
    var bytesLeft: nat
    var error: nat
    var tail: nat          // index of the next word to fetch
    const buffer: seq<Byte>

    ghost predicate Valid()
      reads this
    {
      && error == 0
      && 2 <= tail && bitsLeft <= 32
      && bufa == WordAt(buffer, tail - 2) && bufb == WordAt(buffer, tail - 1)
      && bytesLeft == BytesFrom(|buffer|, tail)
    }

    /** The one number the whole state amounts to. */
    ghost function Pos(): nat
      reads this
      requires Valid()
    {
      32 * (tail - 1) - bitsLeft
    }

    /** The next n bits. */
    ghost function Next(n: nat): Bits
      reads this
      requires Valid()
    {
      Stream(buffer, Pos(), n)
    }

    /** `faad_initbits`; an empty buffer only sets the error flag. */
    constructor (bytes: seq<Byte>)
      ensures buffer == bytes
      ensures bytes == [] <==> error != 0
      ensures bytes != [] ==> Valid() && Pos() == 0
    {
      buffer := bytes;
      bitsLeft, tail := 32, 2;
      bufa, bufb, bytesLeft := 0, 0, 0;
      error := if |bytes| == 0 then 1 else 0;
      new;
      if error == 0 {
        Fetch(0);
      }
    }

    /** Loads words k and k + 1, as `faad_initbits`, `faad_rewindbits` and `faad_resetbits` all do. */
    method Fetch(k: nat)
      requires 4 * k <= |buffer|
      modifies this`bufa, this`bufb, this`bytesLeft
      ensures bufa == WordAt(buffer, k) && bufb == WordAt(buffer, k + 1)
      ensures bytesLeft == BytesFrom(|buffer|, k + 2)
    {
      hide GetDword, GetDwordN, WordAt;
      Fetched(buffer, k);
      Fetched(buffer, k + 1);
      bytesLeft := |buffer| - 4 * k;
      if bytesLeft >= 4 {
        bufa := GetDword(buffer, 4 * k);
        bytesLeft := bytesLeft - 4;
      } else {
        bufa := GetDwordN(buffer, 4 * k, bytesLeft);
        bytesLeft := 0;
      }
      if bytesLeft >= 4 {
        bufb := GetDword(buffer, 4 * k + 4);
        bytesLeft := bytesLeft - 4;
      } else {
        bufb := GetDwordN(buffer, 4 * k + 4, bytesLeft);
        bytesLeft := 0;
      }
    }

    /** `faad_get_processed_bits`. */
    method GetProcessedBits() returns (p: int)
      requires Valid()
      ensures p == Pos()
    {
      p := 8 * (4 * tail - 4) - bitsLeft;
    }

    /** `faad_flushbits_ex`: reaches as far as the end of the second word. */
    method FlushBitsEx(bits: nat)
      requires Valid() && bitsLeft <= bits <= bitsLeft + 32
      modifies this
      ensures Valid() && Pos() == old(Pos()) + bits
      ensures bitsLeft == 0 <==> bits == old(bitsLeft) + 32
    {
      hide GetDword, GetDwordN, WordAt;
      Fetched(buffer, tail);
      bufa := bufb;
      if bytesLeft >= 4 {
        bufb := GetDword(buffer, 4 * tail);
        bytesLeft := bytesLeft - 4;
      } else {
        bufb := GetDwordN(buffer, 4 * tail, bytesLeft);
        bytesLeft := 0;
      }
      tail := tail + 1;
      bitsLeft := bitsLeft + 32 - bits;
    }

    /** `faad_flushbits`. */
    method FlushBits(bits: nat)
      requires Valid() && bits <= bitsLeft + 32
      modifies this
      ensures Valid() && Pos() == old(Pos()) + bits
      ensures bitsLeft == 0 <==> bits == old(bitsLeft) + 32
    {
      if error != 0 {
        return;
      }
      if bits < bitsLeft {
        bitsLeft := bitsLeft - bits;
      } else {
        FlushBitsEx(bits);
      }
    }

    /** `faad_showbits`. With no bits left in bufa, 32 bits would need a shift by 32, which C leaves undefined. */
    function ShowBits(bits: nat): nat
      reads this
      requires bitsLeft <= 32 && bits <= 32
    {
      if bits <= bitsLeft then Shr(Shl(bufa, 32 - bitsLeft), 32 - bits)
      else
        var rest := bits - bitsLeft;
        Or(Shl(And(bufa, Pow2(bitsLeft) - 1), rest), Shr(bufb, 32 - rest))
    }

    lemma ShowBit(bits: nat, i: nat)
      requires Valid() && i < bits <= 32
      ensures Bit(ShowBits(bits), i) == StreamBit(buffer, Pos() + bits - 1 - i)
    {
      hide Bit, And, Or, Shl, Shr, Scale;
      if bits <= bitsLeft {
        ShrBit(Shl(bufa, 32 - bitsLeft), 32 - bits, i);
        ShlBit(bufa, 32 - bitsLeft, i + 32 - bits);
        WordBit(buffer, tail - 2, i + bitsLeft - bits);
      } else {
        var rest := bits - bitsLeft;
        TwoWordBit(bufa, bufb, bitsLeft, rest, i);
        if i >= rest {
          WordBit(buffer, tail - 2, i - rest);
        } else {
          WordBit(buffer, tail - 1, i + 32 - rest);
        }
      }
    }

    lemma ShowBelow(bits: nat)
      requires Valid() && bits <= 32
      ensures ShowBits(bits) < Pow2(bits)
    {
      hide Bit, And, Or, Shl, Shr, Scale, WordAt, BytesFrom;
      if bits <= bitsLeft {
        PowWord();
        ShrBelow(Shl(bufa, 32 - bitsLeft), bits, 32 - bits);
      } else {
        AcrossBelow(bufa, bufb, bitsLeft, bits);
      }
    }

    /** The shown number is spelled by the next bits. */
    lemma ShowValue(bits: nat)
      requires Valid() && bits <= 32
      ensures bitsLeft <= 32 && ShowBits(bits) == Value(Next(bits))
    {
      hide Bit, And, Or, Shl, Shr, Scale;
      var v := ShowBits(bits);
      ShowBelow(bits);
      ValueOfLow(v, bits);
      forall j | 0 <= j < bits ensures Low(v, bits)[j] == Next(bits)[j] {
        LowAt(v, bits, j);
        ShowBit(bits, bits - 1 - j);
      }
      assert Low(v, bits) == Next(bits);
    }

    /** `faad_getbits`. */
    method GetBits(n: nat) returns (ret: nat)
      requires Valid() && n <= 32 && !(n == 32 && bitsLeft == 0)
      modifies this
      ensures Valid() && Pos() == old(Pos()) + n && ret == Value(old(Next(n)))
      ensures bitsLeft == 0 <==> n == 0 && old(bitsLeft) == 0
    {
      if n == 0 {
        return 0;
      }
      ShowValue(n);
      ret := ShowBits(n);
      FlushBits(n);
    }

    /** `faad_get1bit`. */
    method Get1Bit() returns (r: nat)
      requires Valid()
      modifies this
      ensures Valid() && Pos() == old(Pos()) + 1
      ensures r == if StreamBit(buffer, old(Pos())) then 1 else 0
      ensures bitsLeft == 0 <==> old(bitsLeft) == 1
    {
      hide Bit, And, Or, Shl, Shr, Scale, StreamBit, WordAt, BytesFrom, Value;
      if bitsLeft > 0 {
        WordBit(buffer, tail - 2, bitsLeft - 1);
        ShrBit(bufa, bitsLeft - 1, 0);
        LowestBit(Shr(bufa, bitsLeft - 1));
        bitsLeft := bitsLeft - 1;
        r := Shr(bufa, bitsLeft) % 2;
        return;
      }
      assert Next(1) == [StreamBit(buffer, Pos())];
      OneBit(StreamBit(buffer, Pos()));
      r := GetBits(1);
    }

    lemma Standing()
      requires Valid()
      ensures tail >= 2 && bitsLeft <= 32 && Pos() == 32 * (tail - 1) - bitsLeft
    {
    }

    /** `faad_byte_align`. */
    method ByteAlign() returns (skipped: nat)
      requires Valid()
      modifies this
      ensures Valid() && Pos() == old(Pos()) + skipped && ByteAligned(Pos()) && skipped < 8
      ensures bitsLeft == 0 <==> old(bitsLeft) == 0
    {
      hide *;
      Standing();
      NoRemainder();
      var remainder := Remainder(bitsLeft);
      AlignedBy(Pos(), tail - 1, bitsLeft);
      if remainder != 0 {
        FlushBits(8 - remainder);
        return 8 - remainder;
      }
      return 0;
    }

    /** `faad_rewindbits`. */
    method RewindBits()
      requires Valid()
      modifies this
      ensures Valid() && Pos() == 0 && bitsLeft > 0
    {
      Fetch(0);
      bitsLeft := 32;
      tail := 2;
    }

    /** `faad_resetbits`, for a position whose word starts inside the buffer or right at its end. */
    method ResetBits(bits: nat)
      requires 4 * (bits / 32) <= |buffer|
      modifies this
      ensures Valid() && Pos() == bits && bitsLeft > 0
    {
      var words := bits / 32;
      var remainder := bits % 32;
      Fetch(words);
      bitsLeft := 32 - remainder;
      tail := words + 2;
      error := 0;
    }

    lemma NextStream(n: nat)
      requires Valid()
      ensures Next(n) == Stream(buffer, Pos(), n)
    {
    }

    /** `faad_getbitbuffer`: the byte after the last full one is set only when bits are left for it. */
    method GetBitBuffer(bits: nat) returns (bytes: array<Byte>)
      requires Valid()
      modifies this
      ensures fresh(bytes) && bytes.Length == bits / 8 + 1
      ensures Valid() && Pos() == old(Pos()) + bits
      ensures Stream(bytes[..], 0, bits) == old(Next(bits))
      ensures bitsLeft == 0 <==> bits == 0 && old(bitsLeft) == 0
    {
      hide *;
      NextStream(bits);
      var full, remainder := bits / 8, bits % 8;
      ghost var start := Pos();
      bytes := new Byte[full + 1];
      for i := 0 to full
        invariant Valid() && Pos() == start + 8 * i && (bitsLeft == 0 <==> i == 0 && old(bitsLeft) == 0)
        invariant Stream(bytes[..], 0, 8 * i) == Stream(buffer, start, 8 * i)
      {
        ghost var before := bytes[..];
        NextStream(8);
        ByteOfBits(Next(8), 0);
        ByteExtends(before, buffer, start, i, 0);
        var b := GetBits(8);
        bytes[i] := b;
        assert bytes[..] == before[i := b];
      }
      if remainder != 0 {
        ghost var before := bytes[..];
        NextStream(remainder);
        ByteOfBits(Next(remainder), 8 - remainder);
        ByteExtends(before, buffer, start, full, 8 - remainder);
        var temp := GetBits(remainder);
        var last: Byte := Shl(temp, 8 - remainder);
        bytes[full] := last;
        assert bytes[..] == before[full := last];
      }
    }
  }

  /** Storing 8 - pad more stream bits, padded below, extends the copied stream. */
  lemma ByteExtends(bytes: seq<Byte>, buffer: seq<Byte>, start: nat, i: nat, pad: nat)
    requires i < |bytes| && pad < 8
    requires Stream(bytes, 0, 8 * i) == Stream(buffer, start, 8 * i)
    ensures var next := Stream(buffer, start + 8 * i, 8 - pad);
            && Shl(Value(next), pad) < 0x100
            && Stream(bytes[i := Shl(Value(next), pad)], 0, 8 * i + 8 - pad) == Stream(buffer, start, 8 * i + 8 - pad)
            && (pad == 0 ==> Shl(Value(next), 0) == Value(next))
  {
    var next := Stream(buffer, start + 8 * i, 8 - pad);
    ByteOfBits(next, pad);
    ByteBit(next, pad, 0);
    var after := bytes[i := Shl(Value(next), pad)];
    forall k | 0 <= k < 8 * i + 8 - pad ensures StreamBit(after, k) == StreamBit(buffer, start + k) {
      if k >= 8 * i {
        ByteBit(next, pad, k - 8 * i);
        assert k / 8 == i && k % 8 == k - 8 * i;
        assert next[k - 8 * i] == StreamBit(buffer, start + 8 * i + (k - 8 * i));
      } else {
        assert Stream(bytes, 0, 8 * i)[k] == Stream(buffer, start, 8 * i)[k];
        assert k / 8 < i;
      }
    }
    var n := 8 * i + 8 - pad;
    forall k | 0 <= k < n ensures Stream(after, 0, n)[k] == Stream(buffer, start, n)[k] {
      assert StreamBit(after, k) == StreamBit(buffer, start + k);
    }
  }

  lemma ByteOfBits(s: Bits, pad: nat)
    requires |s| + pad == 8
    ensures Shl(Value(s), pad) < 0x100 && Value(s) < 0x100
  {
    ValueBelow(s);
    ScaleBelow(Value(s), |s|, pad);
    PowMono(|s|, 8);
    ScaleConst8(1);
    AndBelow(Scale(Value(s), pad), ONES);
  }

  lemma ByteBit(s: Bits, pad: nat, k: nat)
    requires |s| + pad == 8 && k < |s|
    ensures Bit(Shl(Value(s), pad), 7 - k) == s[k]
    ensures pad == 0 ==> Shl(Value(s), 0) == Value(s)
  {
    ShlBit(Value(s), pad, 7 - k);
    LowOfValue(s);
    LowAt(Value(s), |s|, k);
    if pad == 0 {
      ByteOfBits(s, 0);
      PowWord();
      forall i | 0 <= i < 32 ensures Bit(Shl(Value(s), 0), i) == Bit(Value(s), i) {
        ShlBit(Value(s), 0, i);
      }
      SameBits(Shl(Value(s), 0), Value(s), 32);
    }
  }
}
