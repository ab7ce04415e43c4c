/**
  Unsigned machine words as natural numbers, the C operators on them, and the
  reading of a word as a list of bits with the most significant bit first.
  Shifts are repeated doublings and halvings, so no product or quotient of two
  variables ever appears.
 */
module Words {

  type Bits = seq<bool>

  const WORD: nat := 0x1_0000_0000
  const ONES: nat := 0xFFFF_FFFF

  /** x times 2^k. */
  function Scale(x: nat, k: nat): (y: nat)
    ensures y >= x
  {
    if k == 0 then x else 2 * Scale(x, k - 1)
  }

  /** x >> k. */
  function Shr(x: nat, k: nat): (y: nat)
    ensures y <= x
  {
    if k == 0 then x else Shr(x / 2, k - 1)
  }

  /** x << k on `uint32_t`: only the low 32 bits stay. */
  function Shl(x: nat, k: nat): (y: nat)
    ensures y < WORD
  {
    AndBelow(Scale(x, k), ONES);
    And(Scale(x, k), ONES)
  }

  function Pow2(k: nat): (p: nat)
    ensures p >= 1
  {
    Scale(1, k)
  }

  function And(a: nat, b: nat): nat
    decreases a
  {
    if a == 0 then 0
    else 2 * And(a / 2, b / 2) + (if a % 2 == 1 && b % 2 == 1 then 1 else 0)
  }

  function Or(a: nat, b: nat): nat
    decreases a
  {
    if a == 0 then b
    else 2 * Or(a / 2, b / 2) + (if a % 2 == 1 || b % 2 == 1 then 1 else 0)
  }

  /** ~a on `uint32_t`. */
  function Not(a: nat): nat
    requires a < WORD
  {
    ONES - a
  }

  /** Bit i of x, counted from the least significant end. */
  predicate Bit(x: nat, i: nat) {
    if i == 0 then x % 2 == 1 else Bit(x / 2, i - 1)
  }

  /** The low n bits of x, most significant first. */
  function Low(x: nat, n: nat): (s: Bits)
    ensures |s| == n
  {
    if n == 0 then [] else Low(x / 2, n - 1) + [x % 2 == 1]
  }

  /** The number a list of bits spells, most significant first. */
  function Value(s: Bits): nat {
    if s == [] then 0 else 2 * Value(s[..|s| - 1]) + (if s[|s| - 1] then 1 else 0)
  }

  function Zeros(n: nat): (s: Bits)
    ensures |s| == n && forall i :: 0 <= i < n ==> !s[i]
  {
    seq(n, i => false)
  }

  /** The first n bits of s, followed by zeros where s is too short. */
  function Padded(s: Bits, n: nat): (p: Bits)
    ensures |p| == n
  {
    seq(n, (j: nat) => j < |s| && s[j])
  }

  function Rev(s: Bits): (r: Bits)
    ensures |r| == |s|
    ensures forall i :: 0 <= i < |s| ==> r[i] == s[|s| - 1 - i]
  {
    seq(|s|, i requires 0 <= i < |s| => s[|s| - 1 - i])
  }

  // ----- lists of bits

  lemma {:induction false} LowAt(x: nat, n: nat, j: nat)
    requires j < n
    ensures Low(x, n)[j] == Bit(x, n - 1 - j)
  {
    if j < n - 1 {
      LowAt(x / 2, n - 1, j);
    }
  }

  /** Lists agree exactly when the bits do. */
  lemma {:induction false} LowSame(x: nat, y: nat, n: nat)
    requires forall i :: 0 <= i < n ==> Bit(x, i) == Bit(y, i)
    ensures Low(x, n) == Low(y, n)
  {
    forall j | 0 <= j < n ensures Low(x, n)[j] == Low(y, n)[j] {
      LowAt(x, n, j);
      LowAt(y, n, j);
    }
  }

  lemma {:induction false} LowOfValue(s: Bits)
    ensures Low(Value(s), |s|) == s
  {
    if s != [] {
      LowOfValue(s[..|s| - 1]);
    }
  }

  lemma {:induction false} ValueOfLow(x: nat, n: nat)
    requires x < Pow2(n)
    ensures Value(Low(x, n)) == x
  {
    if n > 0 {
      ValueOfLow(x / 2, n - 1);
      assert Low(x, n)[..n - 1] == Low(x / 2, n - 1);
    }
  }

  lemma {:induction false} ValueBelow(s: Bits)
    ensures Value(s) < Pow2(|s|)
  {
    if s != [] {
      ValueBelow(s[..|s| - 1]);
    }
  }

  lemma {:induction false} ValueZeros(n: nat)
    ensures Value(Zeros(n)) == 0
  {
    if n > 0 {
      assert Zeros(n)[..n - 1] == Zeros(n - 1);
      ValueZeros(n - 1);
    }
  }

  // ----- shifts

  lemma {:induction false} ScaleAdd(x: nat, a: nat, b: nat)
    ensures Scale(Scale(x, a), b) == Scale(x, a + b)
  {
    if b > 0 {
      ScaleAdd(x, a, b - 1);
    }
  }

  lemma {:induction false} ScaleBelow(x: nat, a: nat, b: nat)
    requires x < Pow2(a)
    ensures Scale(x, b) + Pow2(b) <= Pow2(a + b)
  {
    if b > 0 {
      ScaleBelow(x, a, b - 1);
    }
  }

  lemma {:induction false} ShrBit(x: nat, k: nat, i: nat)
    ensures Bit(Shr(x, k), i) == Bit(x, i + k)
  {
    if k > 0 {
      ShrBit(x / 2, k - 1, i);
    }
  }

  lemma {:induction false} ScaleBit(x: nat, k: nat, i: nat)
    ensures Bit(Scale(x, k), i) == (i >= k && Bit(x, i - k))
  {
    if k > 0 && i > 0 {
      ScaleBit(x, k - 1, i - 1);
    }
  }

  /** The bits of a number y of k bits with x written above it. */
  lemma {:induction false} JoinBit(x: nat, y: nat, k: nat, i: nat)
    requires y < Pow2(k)
    ensures Bit(Scale(x, k) + y, i) == if i < k then Bit(y, i) else Bit(x, i - k)
  {
    if k > 0 {
      JoinHalves(x, y, k);
      if i > 0 {
        JoinBit(x, y / 2, k - 1, i - 1);
      }
    }
  }

  lemma JoinHalves(x: nat, y: nat, k: nat)
    requires y < Pow2(k) && k > 0
    ensures y / 2 < Pow2(k - 1) && (Scale(x, k) + y) / 2 == Scale(x, k - 1) + y / 2 && (Scale(x, k) + y) % 2 == y % 2
  {
  }

  lemma {:induction false} ShrBelow(x: nat, a: nat, b: nat)
    requires x < Pow2(a + b)
    ensures Shr(x, b) < Pow2(a)
  {
    if b > 0 {
      ShrBelow(x / 2, a, b - 1);
    }
  }

  /** Bits at and above the size of a number are clear. */
  lemma {:induction false} HighClear(x: nat, n: nat, i: nat)
    requires x < Pow2(n) && i >= n
    ensures !Bit(x, i)
  {
    if i > 0 {
      HighClear(x / 2, if n == 0 then 0 else n - 1, i - 1);
    }
  }

  /** Two numbers of n bits with equal bits are equal. */
  lemma {:induction false} SameBits(x: nat, y: nat, n: nat)
    requires x < Pow2(n) && y < Pow2(n)
    requires forall i :: 0 <= i < n ==> Bit(x, i) == Bit(y, i)
    ensures x == y
  {
    LowSame(x, y, n);
    ValueOfLow(x, n);
    ValueOfLow(y, n);
  }

  lemma {:induction false} PowMono(a: nat, b: nat)
    requires a <= b
    ensures Pow2(a) <= Pow2(b)
  {
    if a < b {
      PowMono(a, b - 1);
    }
  }

  lemma PowWord()
    ensures Pow2(32) == WORD
  {
    ScaleAdd(1, 16, 16);
    ScaleConst16(Pow2(16));
    ScaleConst16(1);
  }

  lemma Pow16()
    ensures Pow2(16) == 0x1_0000
  {
    ScaleConst16(1);
  }

  lemma ScaleConst16(x: nat)
    ensures Scale(x, 16) == 0x1_0000 * x
  {
    ScaleAdd(x, 8, 8);
    ScaleConst8(x);
    ScaleConst8(Scale(x, 8));
  }

  lemma ScaleConst4(x: nat)
    ensures Scale(x, 4) == 16 * x
  {
    assert Scale(x, 1) == 2 * Scale(x, 0) && Scale(x, 2) == 2 * Scale(x, 1);
    assert Scale(x, 3) == 2 * Scale(x, 2);
  }

  lemma ScaleConst8(x: nat)
    ensures Scale(x, 8) == 0x100 * x
  {
    ScaleAdd(x, 4, 4);
    ScaleConst4(x);
    ScaleConst4(Scale(x, 4));
  }

  /** Bit i of a left shift that drops everything at or above bit 32. */
  lemma ShlBit(x: nat, k: nat, i: nat)
    ensures Bit(Shl(x, k), i) == (k <= i < 32 && Bit(x, i - k))
  {
    PowWord();
    AndBit(Scale(x, k), ONES, i);
    MaskBit(32, i);
    ScaleBit(x, k, i);
  }

  /** Bits of two nibbles, bytes or half-words side by side. */
  lemma NibblePairBit(a: nat, b: nat, i: nat)
    requires a < 16 && b < 16 && i < 8
    ensures Bit(16 * a + b, i) == if i < 4 then Bit(b, i) else Bit(a, i - 4)
  {
    ScaleConst4(a);
    ScaleConst4(1);
    JoinBit(a, b, 4, i);
  }

  lemma BytePairBit(a: nat, b: nat, i: nat)
    requires a < 0x100 && b < 0x100 && i < 16
    ensures Bit(0x100 * a + b, i) == if i < 8 then Bit(b, i) else Bit(a, i - 8)
  {
    ScaleConst8(a);
    ScaleConst8(1);
    JoinBit(a, b, 8, i);
  }

  lemma HalfPairBit(a: nat, b: nat, i: nat)
    requires a < 0x1_0000 && b < 0x1_0000 && i < 32
    ensures Bit(0x1_0000 * a + b, i) == if i < 16 then Bit(b, i) else Bit(a, i - 16)
  {
    ScaleConst16(a);
    ScaleConst16(1);
    JoinBit(a, b, 16, i);
  }

  lemma LowestBit(x: nat)
    ensures Bit(x, 0) == (x % 2 == 1)
  {
  }

  lemma ShlBelow(x: nat, k: nat)
    ensures Shl(x, k) <= Scale(x, k)
  {
    AndBelow(Scale(x, k), ONES);
  }

  // ----- the bitwise operators

  lemma {:induction false} AndBit(a: nat, b: nat, i: nat)
    ensures Bit(And(a, b), i) <==> Bit(a, i) && Bit(b, i)
  {
    if a == 0 {
      HighClear(0, 0, i);
    } else if i > 0 {
      AndBit(a / 2, b / 2, i - 1);
    }
  }

  lemma {:induction false} OrBit(a: nat, b: nat, i: nat)
    ensures Bit(Or(a, b), i) <==> Bit(a, i) || Bit(b, i)
  {
    if a == 0 {
      HighClear(0, 0, i);
    } else if i > 0 {
      OrBit(a / 2, b / 2, i - 1);
    }
  }

  lemma {:induction false} NotBit(a: nat, n: nat, i: nat)
    requires a < Pow2(n) && i < n
    ensures Bit(Pow2(n) - 1 - a, i) == !Bit(a, i)
  {
    if i > 0 {
      assert (Pow2(n) - 1 - a) / 2 == Pow2(n - 1) - 1 - a / 2;
      NotBit(a / 2, n - 1, i - 1);
    }
  }

  lemma {:induction false} MaskBit(n: nat, i: nat)
    ensures Bit(Pow2(n) - 1, i) == (i < n)
  {
    if n == 0 {
      HighClear(0, 0, i);
    } else if i > 0 {
      MaskBit(n - 1, i - 1);
    }
  }

  lemma {:induction false} AndBelow(a: nat, b: nat)
    ensures And(a, b) <= a && And(a, b) <= b
  {
    if a > 0 {
      AndBelow(a / 2, b / 2);
    }
  }

  lemma {:induction false} OrBelow(a: nat, b: nat, k: nat)
    requires a < Pow2(k) && b < Pow2(k)
    ensures Or(a, b) < Pow2(k)
  {
    if a > 0 {
      OrBelow(a / 2, b / 2, k - 1);
    }
  }

  lemma {:induction false} OrComm(a: nat, b: nat)
    ensures Or(a, b) == Or(b, a)
    decreases a + b
  {
    if a == 0 && b > 0 {
      OrComm(0, b / 2);
    } else if a > 0 {
      OrComm(a / 2, b / 2);
    }
  }

  /** `|` of a shifted number and one that fits below it is their sum. */
  lemma {:induction false} OrScale(a: nat, b: nat, k: nat)
    requires b < Pow2(k)
    ensures Or(Scale(a, k), b) == Scale(a, k) + b
  {
    if k > 0 {
      OrScale(a, b / 2, k - 1);
    } else if a > 0 {
      OrScale(a / 2, 0, 0);
    }
  }
}
