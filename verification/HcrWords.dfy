/**
  The 64-bit bit register of the codeword reorderer: two 32-bit words and a
  length, read as the list of its low `len` bits, first bit to be read first.
  Bits of the words at or above `len` are stale and must never show.
 */
module HcrWords {
  import opened Words

  /** `bits_t`: bufb is the high word, bufa the low word. */
  datatype Register = Register(bufa: nat, bufb: nat, len: nat) {

    predicate Valid() {
      bufa < WORD && bufb < WORD && len <= 64
    }

    /** Bit k of the 64, counted from the least significant end of bufa. */
    predicate At(k: nat) {
      if k < 32 then Bit(bufa, k) else Bit(bufb, k - 32)
    }

    function Content(): (s: Bits)
      ensures |s| == len
    {
      seq(len, j requires 0 <= j < len => At(len - 1 - j))
    }
  }

  // ----- rewind and reverse

  /** The distances S[] and masks B[] of the 32-bit reversal. */
  const S: seq<nat> := [1, 2, 4, 8, 16]
  const B: seq<nat> := [0x55555555, 0x33333333, 0x0F0F0F0F, 0x00FF00FF, 0x0000FFFF]

  /** One exchange of the 32-bit reversal: ((v >> s) & b) | ((v << s) & ~b). */
  function Exchange(v: nat, s: nat, b: nat): nat
    requires b < WORD
  {
    Or(And(Shr(v, s), b), And(Shl(v, s), Not(b)))
  }

  /** The first n of the five exchanges. */
  function Exchanges(v: nat, n: nat): nat
    requires n <= 5
  {
    if n == 0 then v else Exchange(Exchanges(v, n - 1), S[n - 1], B[n - 1])
  }

  function Reverse32(v: nat): nat {
    Exchanges(v, 5)
  }

  function RewrevWord(v: nat, len: nat): nat
    requires len <= 32
  {
    Shr(Reverse32(v), 32 - len)
  }

  /** 64-bit version; the result is the new (hi, lo). */
  function RewrevLword(hi: nat, lo: nat, len: nat): (nat, nat)
    requires len <= 64
  {
    if len <= 32 then (0, RewrevWord(lo, len))
    else
      var t, v := Reverse32(hi), Reverse32(lo);
      (Shr(v, 64 - len), Or(Shr(t, 64 - len), Shl(v, len - 32)))
  }

  function RewrevBits(r: Register): Register
    requires r.len <= 64
  {
    if r.len == 0 then r
    else
      var (hi, lo) := RewrevLword(r.bufb, r.bufa, r.len);
      Register(lo, hi, r.len)
  }

  /** b has the bits i < 32 set for which i / s is even. */
  predicate IsMask(b: nat, s: nat)
    requires s > 0
  {
    forall i :: 0 <= i < 32 ==> Bit(b, i) == ((i / s) % 2 == 0)
  }

  /** The bit that an exchange at distance s brings to position i. */
  function Partner(i: nat, s: nat): (p: nat)
    requires s > 0
  {
    if (i / s) % 2 == 0 then i + s else if i >= s then i - s else 0
  }

  lemma ExchangeBit(v: nat, s: nat, b: nat, i: nat)
    requires i < 32 && s > 0 && b < WORD && IsMask(b, s) && v < WORD
    ensures Bit(Exchange(v, s, b), i) == (((i / s) % 2 == 0 || i >= s) && Bit(v, Partner(i, s)))
    ensures Exchange(v, s, b) < WORD
  {
    hide Bit, And, Or, Shl, Shr, Scale;
    PowWord();
    var x, y := And(Shr(v, s), b), And(Shl(v, s), Not(b));
    OrBit(x, y, i);
    AndBit(Shr(v, s), b, i);
    AndBit(Shl(v, s), Not(b), i);
    NotBit(b, 32, i);
    ShrBit(v, s, i);
    ShlBit(v, s, i);
    AndBelow(Shr(v, s), b);
    AndBelow(Shl(v, s), Not(b));
    OrBelow(x, y, 32);
  }

  /** Where bit i of the word comes from after n exchanges. */
  function Origin(i: nat, n: nat): nat
    requires n <= 5
    decreases n
  {
    if n == 0 then i else Origin(Partner(i, S[n - 1]), n - 1)
  }

  lemma {:induction false} ExchangesBit(v: nat, n: nat, i: nat)
    requires v < WORD && i < 32 && n <= 5
    ensures Exchanges(v, n) < WORD && Bit(Exchanges(v, n), i) == Bit(v, Origin(i, n))
  {
    if n > 0 {
      var j := Partner(i, S[n - 1]);
      MaskB(n - 1);
      PartnerBelow(i, n - 1);
      ExchangesBit(v, n - 1, j);
      ExchangeBit(Exchanges(v, n - 1), S[n - 1], B[n - 1], i);
    }
  }

  lemma PartnerBelow(i: nat, n: nat)
    requires i < 32 && n < 5
    ensures Partner(i, S[n]) < 32 && ((i / S[n]) % 2 == 0 || i >= S[n])
  {
    assert S[n] == 1 || S[n] == 2 || S[n] == 4 || S[n] == 8 || S[n] == 16;
  }

  /** i reflected inside its block of m positions. */
  function Mirror(i: nat, m: nat): int
    requires m > 0
  {
    i - i % m + (m - 1 - i % m)
  }

  /** Reflecting in blocks of s after an exchange at distance s reflects in blocks of 2 s. */
  lemma MirrorStep(i: nat, n: nat)
    requires i < 32 && n < 5
    ensures Partner(i, S[n]) < 32 && Mirror(Partner(i, S[n]), S[n]) == Mirror(i, 2 * S[n])
  {
    match n
    case 0 => Mirror1(i);
    case 1 => Mirror2(i);
    case 2 => Mirror4(i);
    case 3 => Mirror8(i);
    case 4 => Mirror16(i);
  }

  lemma Mirror1(i: nat)
    requires i < 32
    ensures Partner(i, 1) < 32 && Mirror(Partner(i, 1), 1) == Mirror(i, 2)
  {
  }

  lemma Mirror2(i: nat)
    requires i < 32
    ensures Partner(i, 2) < 32 && Mirror(Partner(i, 2), 2) == Mirror(i, 4)
  {
  }

  lemma Mirror4(i: nat)
    requires i < 32
    ensures Partner(i, 4) < 32 && Mirror(Partner(i, 4), 4) == Mirror(i, 8)
  {
  }

  lemma Mirror8(i: nat)
    requires i < 32
    ensures Partner(i, 8) < 32 && Mirror(Partner(i, 8), 8) == Mirror(i, 16)
  {
  }

  lemma Mirror16(i: nat)
    requires i < 32
    ensures Partner(i, 16) < 32 && Mirror(Partner(i, 16), 16) == Mirror(i, 32)
  {
  }

  lemma {:induction false} OriginMirrors(i: nat, n: nat)
    requires i < 32 && n <= 5
    ensures Origin(i, n) == Mirror(i, if n == 5 then 32 else S[n])
    decreases n
  {
    if n > 0 {
      MirrorStep(i, n - 1);
      OriginMirrors(Partner(i, S[n - 1]), n - 1);
      assert n < 5 ==> S[n] == 2 * S[n - 1];
    }
  }

  /** Five exchanges reverse a word. */
  lemma Reverse32Bit(v: nat, i: nat)
    requires v < WORD && i < 32
    ensures Bit(Reverse32(v), i) == Bit(v, 31 - i) && Reverse32(v) < WORD
  {
    hide Exchanges, Origin, Bit;
    ExchangesBit(v, 5, i);
    OriginMirrors(i, 5);
  }

  lemma Nibble(x: nat)
    requires x < 16
    ensures Bit(x, 0) == (x % 2 == 1) && Bit(x, 1) == ((x / 2) % 2 == 1)
    ensures Bit(x, 2) == ((x / 4) % 2 == 1) && Bit(x, 3) == ((x / 8) % 2 == 1)
  {
    var y, z, w := x / 2, x / 4, x / 8;
    assert y / 2 == z && z / 2 == w;
    BitStep(x, 0);
    BitStep(x, 1);
    BitStep(x, 2);
    BitStep(y, 0);
    BitStep(y, 1);
    BitStep(z, 0);
  }

  lemma BitStep(x: nat, i: nat)
    ensures Bit(x, i + 1) == Bit(x / 2, i)
  {
  }

  /** A byte of two nibbles. */
  lemma ByteOfNibbles(bb: nat, na: nat, nb: nat, i: nat)
    requires i < 8 && na < 16 && nb < 16 && bb == 16 * na + nb
    ensures Bit(bb, i) == Bit(if i < 4 then nb else na, i % 4)
  {
    hide Bit;
    NibblePairBit(na, nb, i);
  }

  /** A half word of two bytes, the high one of which may be missing. */
  lemma HalfOfBytes(hb: nat, ba: nat, bb: nat, na: nat, nb: nat, i: nat)
    requires i < 16 && na < 16 && nb < 16 && (ba == 0 || ba == bb) && bb == 16 * na + nb && hb == 0x100 * ba + bb
    ensures Bit(hb, i) == ((i < 8 || ba > 0) && Bit(if i % 8 < 4 then nb else na, i % 4))
  {
    hide Bit;
    BytePairBit(ba, bb, i);
    ByteOfNibbles(bb, na, nb, i % 8);
    HighClear(0, 0, i % 8);
    assert (i % 8) % 4 == i % 4;
  }

  /** The mask whose 32-bit, 16-bit, 8-bit and 4-bit pieces are given. */
  lemma WordOfNibbles(ha: nat, hb: nat, ba: nat, bb: nat, na: nat, nb: nat, i: nat)
    requires i < 32 && na < 16 && nb < 16
    requires ba == 0 || ba == 16 * na + nb
    requires bb == 16 * na + nb
    requires ha == 0 || ha == 0x100 * ba + bb
    requires hb == 0x100 * ba + bb
    ensures Bit(0x1_0000 * ha + hb, i) ==
            ((i < 16 || ha > 0) && (i % 16 < 8 || ba > 0) && Bit(if i % 8 < 4 then nb else na, i % 4))
  {
    hide *;
    HalfPairBit(ha, hb, i);
    HighClear(0, 0, i % 16);
    HalfOfBytes(hb, ba, bb, na, nb, i % 16);
    InHalf(i);
  }

  lemma InHalf(i: nat)
    requires i < 32
    ensures i % 16 == (if i < 16 then i else i - 16) && (i % 16) % 8 == i % 8 && (i % 16) % 4 == i % 4
  {
  }

  lemma MaskB(n: nat)
    requires n < 5
    ensures B[n] < WORD && IsMask(B[n], S[n])
  {
    forall i | 0 <= i < 32 ensures Bit(B[n], i) == ((i / S[n]) % 2 == 0) {
      match n
      case 0 => MaskB0(i);
      case 1 => MaskB1(i);
      case 2 => MaskB2(i);
      case 3 => MaskB3(i);
      case 4 => MaskB4(i);
    }
  }

  lemma MaskB0(i: nat)
    requires i < 32
    ensures Bit(0x55555555, i) == ((i / 1) % 2 == 0)
  {
    Nibble(5);
    WordOfNibbles(0x5555, 0x5555, 0x55, 0x55, 5, 5, i);
  }

  lemma MaskB1(i: nat)
    requires i < 32
    ensures Bit(0x33333333, i) == ((i / 2) % 2 == 0)
  {
    Nibble(3);
    WordOfNibbles(0x3333, 0x3333, 0x33, 0x33, 3, 3, i);
  }

  lemma MaskB2(i: nat)
    requires i < 32
    ensures Bit(0x0F0F0F0F, i) == ((i / 4) % 2 == 0)
  {
    Nibble(0);
    Nibble(15);
    WordOfNibbles(0x0F0F, 0x0F0F, 0x0F, 0x0F, 0, 15, i);
  }

  lemma MaskB3(i: nat)
    requires i < 32
    ensures Bit(0x00FF00FF, i) == ((i / 8) % 2 == 0)
  {
    Nibble(15);
    WordOfNibbles(0x00FF, 0x00FF, 0, 0xFF, 15, 15, i);
  }

  lemma MaskB4(i: nat)
    requires i < 32
    ensures Bit(0x0000FFFF, i) == ((i / 16) % 2 == 0)
  {
    Nibble(15);
    WordOfNibbles(0, 0xFFFF, 0xFF, 0xFF, 15, 15, i);
  }

  /** `rewrev_bits` reverses the list, whatever stale bits lie above it. */
  lemma RewrevContent(r: Register)
    requires r.Valid() && r.len <= 63
    ensures RewrevBits(r).Valid() && RewrevBits(r).Content() == Rev(r.Content())
  {
    hide Bit, And, Or, Shl, Shr, Scale;
    if r.len > 0 {
      var q := RewrevBits(r);
      RewrevValid(r);
      forall j | 0 <= j < r.len ensures q.Content()[j] == Rev(r.Content())[j] {
        RewrevAt(r, r.len - 1 - j);
      }
    }
  }

  lemma RewrevValid(r: Register)
    requires r.Valid() && 0 < r.len <= 63
    ensures RewrevBits(r).Valid()
  {
    hide Bit, And, Or, Shl, Shr, Scale;
    PowWord();
    Reverse32Bit(r.bufa, 0);
    Reverse32Bit(r.bufb, 0);
    if r.len > 32 {
      OrBelow(Shr(Reverse32(r.bufb), 64 - r.len), Shl(Reverse32(r.bufa), r.len - 32), 32);
    }
  }

  lemma RewrevAt(r: Register, k: nat)
    requires r.Valid() && 0 < r.len <= 63 && k < r.len
    ensures RewrevBits(r).At(k) == r.At(r.len - 1 - k)
  {
    hide Bit, And, Or, Shl, Shr, Scale;
    PowWord();
    Reverse32Bit(r.bufa, 0);
    Reverse32Bit(r.bufb, 0);
    var t, v := Reverse32(r.bufb), Reverse32(r.bufa);
    if r.len <= 32 {
      ShrBit(v, 32 - r.len, k);
      Reverse32Bit(r.bufa, k + 32 - r.len);
    } else if k < 32 {
      OrBit(Shr(t, 64 - r.len), Shl(v, r.len - 32), k);
      ShrBit(t, 64 - r.len, k);
      ShlBit(v, r.len - 32, k);
      if k < r.len - 32 {
        Reverse32Bit(r.bufb, k + 64 - r.len);
      } else {
        HighClear(t, 32, k + 64 - r.len);
        Reverse32Bit(r.bufa, k - (r.len - 32));
      }
    } else {
      ShrBit(v, 64 - r.len, k - 32);
      Reverse32Bit(r.bufa, k - 32 + 64 - r.len);
    }
  }

  // ----- merging

  /** `concat_bits`: the bits of a are put in front of those of b. */
  function ConcatBits(b: Register, a: Register): Register {
    if a.len == 0 then b
    else if b.len > 32 then
      Register(Or(b.bufa, 0),
               Or(And(b.bufb, Pow2(b.len - 32) - 1), Shl(a.bufa, b.len - 32)),
               b.len + a.len)
    else
      Register(Or(And(b.bufa, Pow2(b.len) - 1), Shl(a.bufa, b.len)),
               Or(0, Or(Shl(a.bufb, b.len), Shr(a.bufa, 32 - b.len))),
               b.len + a.len)
  }

  lemma ConcatWords(b: Register, a: Register)
    requires b.Valid() && a.Valid() && 0 < b.len
    ensures ConcatBits(b, a).bufa < WORD && ConcatBits(b, a).bufb < WORD
  {
    hide Bit, And, Or, Shl, Shr, Scale;
    PowWord();
    if b.len > 32 {
      OrBelow(b.bufa, 0, 32);
      AndBelow(b.bufb, Pow2(b.len - 32) - 1);
      OrBelow(And(b.bufb, Pow2(b.len - 32) - 1), Shl(a.bufa, b.len - 32), 32);
    } else {
      OrBelow(Shl(a.bufb, b.len), Shr(a.bufa, 32 - b.len), 32);
      OrBelow(0, Or(Shl(a.bufb, b.len), Shr(a.bufa, 32 - b.len)), 32);
      AndBelow(b.bufa, Pow2(b.len) - 1);
      OrBelow(And(b.bufa, Pow2(b.len) - 1), Shl(a.bufa, b.len), 32);
    }
  }

  /** Bit i of `(x & ((1 << n) - 1)) | (y << n)`. */
  lemma MergeBit(x: nat, y: nat, n: nat, i: nat)
    requires i < 32
    ensures Bit(Or(And(x, Pow2(n) - 1), Shl(y, n)), i) == if i < n then Bit(x, i) else Bit(y, i - n)
  {
    hide Bit, And, Or, Shl, Shr, Scale;
    OrBit(And(x, Pow2(n) - 1), Shl(y, n), i);
    AndBit(x, Pow2(n) - 1, i);
    MaskBit(n, i);
    ShlBit(y, n, i);
  }

  lemma ConcatAt(b: Register, a: Register, k: nat)
    requires b.Valid() && a.Valid() && 0 < b.len && b.len != 32
    requires 0 < a.len && a.len + b.len <= 64 && k < a.len + b.len
    ensures ConcatBits(b, a).At(k) == if k < b.len then b.At(k) else a.At(k - b.len)
  {
    hide Bit, And, Or, Shl, Shr, Scale;
    PowWord();
    if b.len > 32 {
      if k < 32 {
        OrBit(b.bufa, 0, k);
        HighClear(0, 0, k);
      } else {
        MergeBit(b.bufb, a.bufa, b.len - 32, k - 32);
      }
    } else if k < 32 {
      MergeBit(b.bufa, a.bufa, b.len, k);
    } else {
      var i := k - 32;
      OrBit(0, Or(Shl(a.bufb, b.len), Shr(a.bufa, 32 - b.len)), i);
      HighClear(0, 0, i);
      OrBit(Shl(a.bufb, b.len), Shr(a.bufa, 32 - b.len), i);
      ShlBit(a.bufb, b.len, i);
      ShrBit(a.bufa, 32 - b.len, i);
      if i >= b.len {
        HighClear(a.bufa, 32, i + 32 - b.len);
      }
    }
  }

  /** `concat_bits` yields the bits of a followed by those of b. */
  lemma ConcatContent(b: Register, a: Register)
    requires b.Valid() && a.Valid() && 0 < b.len && b.len != 32 && a.len + b.len <= 64
    ensures ConcatBits(b, a).Valid()
    ensures ConcatBits(b, a).Content() == a.Content() + b.Content()
  {
    hide Bit, And, Or, Shl, Shr, Scale;
    ConcatWords(b, a);
    if a.len > 0 {
      var r := ConcatBits(b, a);
      forall j | 0 <= j < a.len + b.len ensures r.Content()[j] == (a.Content() + b.Content())[j] {
        ConcatAt(b, a, a.len + b.len - 1 - j);
      }
    }
    assert ConcatBits(b, a).Content() == a.Content() + b.Content();
  }

  ghost predicate ConcatRight(b: Register, a: Register) {
    ConcatBits(b, a).Content() == a.Content() + b.Content()
  }

  function TopBit(n: nat): (r: Register)
    requires 0 < n <= 64
    ensures r.len == n
  {
    if n <= 32 then Register(Pow2(n - 1), 0, n) else Register(0, Pow2(n - 33), n)
  }

  lemma TopBitSet(n: nat)
    requires 0 < n <= 64
    ensures TopBit(n).Valid() && TopBit(n).At(n - 1)
  {
    PowWord();
    PowMono(if n <= 32 then n else n - 32, 32);
    ScaleBit(1, if n <= 32 then n - 1 else n - 33, if n <= 32 then n - 1 else n - 33);
  }

  /** The register holds 64 bits: exactly the lengths that fit are merged right for all contents. */
  lemma ConcatExact(la: nat, lb: nat)
    requires 0 < la <= 64 && 0 < lb <= 64 && lb != 32
    ensures (la + lb <= 64) <==>
            forall a: Register, b: Register ::
              a.Valid() && b.Valid() && a.len == la && b.len == lb ==> ConcatRight(b, a)
  {
    hide Bit, And, Or, Shl, Shr, Scale;
    if la + lb <= 64 {
      forall a: Register, b: Register | a.Valid() && b.Valid() && a.len == la && b.len == lb
        ensures ConcatRight(b, a)
      {
        ConcatContent(b, a);
      }
    } else {
      var a, b := TopBit(la), TopBit(lb);
      TopBitSet(la);
      TopBitSet(lb);
      ConcatWords(b, a);
      PowWord();
      var c := ConcatBits(b, a);
      assert c.len == la + lb;
      HighClear(c.bufb, 32, la + lb - 1 - 32);
      assert !c.At(la + lb - 1) && a.At(la - 1);
      assert !c.Content()[0] && a.Content()[0] == (a.Content() + b.Content())[0];
      assert !ConcatRight(b, a);
    }
  }

  // ----- reading

  /** `showbits_hcr`. */
  function ShowBits(r: Register, bits: nat): nat
    requires r.len <= 64 && bits <= 32
  {
    if bits == 0 then 0
    else if r.len <= 32 then
      if r.len >= bits then And(Shr(r.bufa, r.len - bits), Shr(ONES, 32 - bits))
      else And(Shl(r.bufa, bits - r.len), Shr(ONES, 32 - bits))
    else if r.len - bits < 32 then
      Or(Shl(And(r.bufb, Shr(ONES, 64 - r.len)), bits - r.len + 32), Shr(r.bufa, r.len - bits))
    else And(Shr(r.bufb, r.len - bits - 32), Shr(ONES, 32 - bits))
  }

  lemma OnesBit(n: nat, i: nat)
    requires n <= 32
    ensures Bit(Shr(ONES, n), i) == (i < 32 - n)
  {
    hide Bit, And, Or, Shl, Shr, Scale;
    PowWord();
    ShrBit(ONES, n, i);
    MaskBit(32, i + n);
  }

  lemma ShowBelow(r: Register, bits: nat)
    requires r.Valid() && bits <= 32
    ensures ShowBits(r, bits) < Pow2(bits)
  {
    hide Bit, And, Or, Shl, Shr, Scale;
    PowWord();
    if bits > 0 {
      ShrBelow(ONES, bits, 32 - bits);
      if r.len > 32 && r.len - bits < 32 {
        var h, n := And(r.bufb, Shr(ONES, 64 - r.len)), bits - r.len + 32;
        ShrBelow(ONES, r.len - 32, 64 - r.len);
        AndBelow(r.bufb, Shr(ONES, 64 - r.len));
        ScaleBelow(h, r.len - 32, n);
        ShlBelow(h, n);
        ShrBelow(r.bufa, 32 - (r.len - bits), r.len - bits);
        PowMono(32 - (r.len - bits), bits);
        OrBelow(Shl(h, n), Shr(r.bufa, r.len - bits), bits);
      } else {
        AndBelow(Shr(r.bufa, if r.len >= bits then r.len - bits else 0), Shr(ONES, 32 - bits));
        AndBelow(Shl(r.bufa, if r.len < bits then bits - r.len else 0), Shr(ONES, 32 - bits));
        AndBelow(Shr(r.bufb, if r.len >= bits + 32 then r.len - bits - 32 else 0), Shr(ONES, 32 - bits));
      }
    }
  }

  lemma ShowBit(r: Register, bits: nat, i: nat)
    requires r.Valid() && i < bits <= 32
    ensures Bit(ShowBits(r, bits), i) == (i + r.len >= bits && r.At(i + r.len - bits))
  {
    hide Bit, And, Or, Shl, Shr, Scale;
    PowWord();
    OnesBit(32 - bits, i);
    if r.len <= 32 {
      if r.len >= bits {
        AndBit(Shr(r.bufa, r.len - bits), Shr(ONES, 32 - bits), i);
        ShrBit(r.bufa, r.len - bits, i);
      } else {
        AndBit(Shl(r.bufa, bits - r.len), Shr(ONES, 32 - bits), i);
        ShlBit(r.bufa, bits - r.len, i);
      }
    } else if r.len - bits < 32 {
      var n := bits - r.len + 32;
      var h := And(r.bufb, Shr(ONES, 64 - r.len));
      OrBit(Shl(h, n), Shr(r.bufa, r.len - bits), i);
      ShlBit(h, n, i);
      ShrBit(r.bufa, r.len - bits, i);
      if i >= n {
        AndBit(r.bufb, Shr(ONES, 64 - r.len), i - n);
        OnesBit(64 - r.len, i - n);
        HighClear(r.bufa, 32, i + r.len - bits);
      }
    } else {
      AndBit(Shr(r.bufb, r.len - bits - 32), Shr(ONES, 32 - bits), i);
      ShrBit(r.bufb, r.len - bits - 32, i);
    }
  }

  /** `showbits_hcr` is the number spelled by the next bits, zeros following the last. */
  lemma ShowContent(r: Register, bits: nat)
    requires r.Valid() && bits <= 32
    ensures ShowBits(r, bits) == Value(Padded(r.Content(), bits))
  {
    hide Bit, And, Or, Shl, Shr, Scale;
    var v := ShowBits(r, bits);
    ShowBelow(r, bits);
    ValueOfLow(v, bits);
    forall j | 0 <= j < bits ensures Low(v, bits)[j] == Padded(r.Content(), bits)[j] {
      LowAt(v, bits, j);
      ShowBit(r, bits, bits - 1 - j);
    }
    assert Low(v, bits) == Padded(r.Content(), bits);
  }

  /** `flushbits_hcr`: past the end the length becomes 0 and the words stay. */
  function FlushBits(r: Register, bits: nat): (Register, bool) {
    if r.len < bits then (r.(len := 0), true) else (r.(len := r.len - bits), false)
  }

  lemma FlushContent(r: Register, bits: nat)
    requires r.Valid() && bits <= r.len
    ensures FlushBits(r, bits).0.Valid() && FlushBits(r, bits).0.Content() == r.Content()[bits..]
  {
    var q := FlushBits(r, bits).0;
    forall j | 0 <= j < q.len ensures q.Content()[j] == r.Content()[bits..][j] {
      assert q.At(q.len - 1 - j) == r.At(r.len - 1 - (bits + j));
    }
  }
}
