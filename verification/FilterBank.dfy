/** filtbank.c: windows, overlap-add, and perfect reconstruction, over exact reals. */
module FilterBank {

  datatype Sequence = OnlyLong | LongStart | EightShort | LongStop

  /**
    * `fb_info`: the windows of both shapes, and the transforms as functions.
    * A long transform takes 2n samples to n coefficients, a short one n/4 to n/8.
    */
  datatype Bank = Bank(
    n: nat,
    long: seq<seq<real>>,
    short: seq<seq<real>>,
    mdct: seq<real> -> seq<real>,
    imdct: seq<real> -> seq<real>,
    mdctShort: seq<real> -> seq<real>,
    imdctShort: seq<real> -> seq<real>)
  {
    function S(): nat { n / 8 }

    /** The flat stretch on either side of a short slope. */
    function Flat(): nat { (n - S()) / 2 }

    /** The eight short blocks fill the frame and leave two equal flat stretches. */
    predicate EvenSizes() {
      8 * S() == n == 2 * Flat() + S()
    }

    ghost predicate Valid() {
      && 0 < n <= 1024 && EvenSizes()
      && |long| == |short| == 2
      && (forall h :: 0 <= h < 2 ==> |long[h]| == n && |short[h]| == S())
      && (forall f {:trigger imdct(f)} :: |f| == n ==> |imdct(f)| == 2 * n)
      && (forall x {:trigger mdct(x)} :: |x| == 2 * n ==> |mdct(x)| == n)
      && (forall f {:trigger imdctShort(f)} :: |f| == S() ==> |imdctShort(f)| == 2 * S())
      && (forall x {:trigger mdctShort(x)} :: |x| == 2 * S() ==> |mdctShort(x)| == S())
    }
  }

  /** One frame: its window sequence, its window shape, and the shape of the frame before. */
  datatype Kind = Kind(sequence: Sequence, shape: nat, prev: nat)
  {
    predicate Valid() { shape < 2 && prev < 2 }
  }

  /** `MUL_F`, without rounding. */
  function MulF(a: real, b: real): real {
    a * b
  }

  lemma MulOne(a: real)
    ensures MulF(a, 1.0) == a && MulF(1.0, a) == a
  {
  }

  lemma MulZero(a: real)
    ensures MulF(a, 0.0) == 0.0 && MulF(0.0, a) == 0.0
  {
  }

  // ----- the windows

  /** Zeros, a short slope, ones: the rising half of a long window with a short slope. */
  function ShortEdge(fb: Bank, w: seq<real>): (r: seq<real>)
    requires fb.Valid() && |w| == fb.S()
    ensures |r| == fb.n
  {
    seq(fb.n, i requires 0 <= i < fb.n =>
      if i < fb.Flat() then 0.0 else if i < fb.Flat() + fb.S() then w[i - fb.Flat()] else 1.0)
  }

  /** The rising half of a frame's window. */
  function Left(fb: Bank, k: Kind): (r: seq<real>)
    requires fb.Valid() && k.Valid()
    ensures |r| == fb.n
  {
    if k.sequence.OnlyLong? || k.sequence.LongStart? then fb.long[k.prev] else ShortEdge(fb, fb.short[k.prev])
  }

  /** The falling half, read backwards. */
  function Right(fb: Bank, k: Kind): (r: seq<real>)
    requires fb.Valid() && k.Valid()
    ensures |r| == fb.n
  {
    if k.sequence.OnlyLong? || k.sequence.LongStop? then fb.long[k.shape] else ShortEdge(fb, fb.short[k.shape])
  }

  /** x under the window that rises along l and falls along r read backwards. */
  function Windowed(l: seq<real>, r: seq<real>, x: seq<real>): (y: seq<real>)
    requires |l| == |r| && |x| == 2 * |l|
    ensures |y| == |x|
  {
    seq(|x|, i requires 0 <= i < |x| => MulF(x[i], if i < |l| then l[i] else r[2 * |l| - 1 - i]))
  }

  // ----- the eight short blocks of a frame

  /** k blocks of s samples. */
  function Blocks(s: nat, k: nat): nat {
    if k == 0 then 0 else Blocks(s, k - 1) + s
  }

  lemma {:induction false} BlocksFit(s: nat, k: nat, m: nat)
    requires k <= m
    ensures Blocks(s, k) <= Blocks(s, m)
    ensures k < m ==> Blocks(s, k) + s <= Blocks(s, m)
    decreases m
  {
    if k < m {
      BlocksFit(s, k, m - 1);
    }
  }

  /** Where short block k starts in its frame. */
  function Start(fb: Bank, k: nat): nat
    requires fb.Valid()
  {
    fb.Flat() + Blocks(fb.S(), k)
  }

  /** The rising slope of short block k: only the first one follows the previous frame's shape. */
  function Slope(fb: Bank, kind: Kind, k: nat): (r: seq<real>)
    requires fb.Valid() && kind.Valid()
    ensures |r| == fb.S()
  {
    if k == 0 then fb.short[kind.prev] else fb.short[kind.shape]
  }

  lemma EightBlocks(fb: Bank, k: nat)
    requires fb.Valid() && k < 8
    ensures Blocks(fb.S(), k) + fb.S() <= 8 * fb.S() == fb.n
    ensures 2 * fb.Flat() + fb.S() == fb.n
  {
    hide fb.Valid;
    BlocksFit(fb.S(), k, 8);
    BlocksIs(fb.S(), 8);
    Sizes(fb);
  }

  lemma Sizes(fb: Bank)
    requires fb.Valid()
    ensures 8 * fb.S() == fb.n && 2 * fb.Flat() + fb.S() == fb.n && fb.S() > 0 && fb.S() % 2 == 0 && fb.n % 4 == 0
  {
  }

  /** The integer divisions of the frame length come out even exactly for multiples of 16. */
  lemma EvenForSixteens(fb: Bank)
    ensures fb.EvenSizes() <==> fb.n % 16 == 0
  {
    var q, r := fb.n / 16, fb.n % 16;
    assert fb.n == 16 * q + r;
    if r < 8 {
      EighthIs(fb.n, 2 * q, r);
      HalfIs(fb.n - 2 * q, 7 * q + r / 2, r % 2);
    } else {
      EighthIs(fb.n, 2 * q + 1, r - 8);
      HalfIs(fb.n - (2 * q + 1), 7 * q + (r - 1) / 2, (r - 1) % 2);
    }
  }

  lemma EighthIs(n: int, s: int, r: int)
    requires n == 8 * s + r && 0 <= r < 8
    ensures n / 8 == s
  {
  }

  lemma HalfIs(m: int, h: int, r: int)
    requires m == 2 * h + r && 0 <= r < 2
    ensures m / 2 == h
  {
  }

  lemma {:induction false} BlocksIs(s: nat, k: nat)
    requires k <= 8
    ensures Blocks(s, k) ==
      match k { case 0 => 0 case 1 => s case 2 => 2 * s case 3 => 3 * s case 4 => 4 * s
                case 5 => 5 * s case 6 => 6 * s case 7 => 7 * s case _ => 8 * s }
  {
    if k > 0 {
      BlocksIs(s, k - 1);
    }
  }

  /** The falling slope of every short block, backwards. */
  function ShortWindow(fb: Bank, kind: Kind): (r: seq<real>)
    requires fb.Valid() && kind.Valid()
    ensures |r| == fb.S()
  {
    fb.short[kind.shape]
  }

  function Coefficients(fb: Bank, freq: seq<real>, k: nat): (r: seq<real>)
    requires fb.Valid() && |freq| == fb.n && k < 8
    ensures |r| == fb.S()
  {
    EightBlocks(fb, k);
    freq[Blocks(fb.S(), k)..Blocks(fb.S(), k) + fb.S()]
  }

  /** Short block k, transformed back and windowed. */
  function Block(fb: Bank, kind: Kind, freq: seq<real>, k: nat): (y: seq<real>)
    requires fb.Valid() && kind.Valid() && |freq| == fb.n && k < 8
    ensures |y| == 2 * fb.S()
  {
    Windowed(Slope(fb, kind, k), ShortWindow(fb, kind), fb.imdctShort(Coefficients(fb, freq, k)))
  }

  /** Sample j of short block k; zero outside the block. */
  function BlockAt(fb: Bank, kind: Kind, freq: seq<real>, k: nat, j: int): real
    requires fb.Valid() && kind.Valid() && |freq| == fb.n && k < 8
  {
    if 0 <= j < 2 * fb.S() then Block(fb, kind, freq, k)[j] else 0.0
  }

  /** The first m short blocks added up, each at its place, at sample i. */
  function Placed(fb: Bank, kind: Kind, freq: seq<real>, m: nat, i: int): real
    requires fb.Valid() && kind.Valid() && |freq| == fb.n && m <= 8
  {
    if m == 0 then 0.0
    else Placed(fb, kind, freq, m - 1, i) + BlockAt(fb, kind, freq, m - 1, i - Start(fb, m - 1))
  }

  // ----- one frame

  /** The windowed 2n samples that a frame contributes. */
  function Frame(fb: Bank, kind: Kind, freq: seq<real>): (z: seq<real>)
    requires fb.Valid() && kind.Valid() && |freq| == fb.n
    ensures |z| == 2 * fb.n
  {
    if kind.sequence.EightShort? then seq(2 * fb.n, i => Placed(fb, kind, freq, 8, i))
    else Windowed(Left(fb, kind), Right(fb, kind), fb.imdct(freq))
  }

  /** The frame before leaves its second half behind; this frame adds its first. */
  predicate OverlapAdded(n: nat, z: seq<real>, before: seq<real>, out: seq<real>, after: seq<real>)
    requires |z| == 2 * n && |before| == |out| == |after| == n
  {
    && (forall i :: 0 <= i < n ==> out[i] == before[i] + z[i])
    && (forall i :: 0 <= i < n ==> after[i] == z[n + i])
  }

  // ----- which blocks meet at a sample

  lemma {:induction false} PlacedBehind(fb: Bank, kind: Kind, freq: seq<real>, m: nat, i: int)
    requires fb.Valid() && kind.Valid() && |freq| == fb.n && m <= 8
    requires i >= Start(fb, m) + fb.S()
    ensures Placed(fb, kind, freq, m, i) == 0.0
  {
    if m > 0 {
      hide BlockAt;
      hide fb.Valid;
      BlocksFit(fb.S(), m - 1, m);
      PlacedBehind(fb, kind, freq, m - 1, i);
      OutsideBlock(fb, kind, freq, m - 1, i - Start(fb, m - 1));
    }
  }

  lemma OutsideBlock(fb: Bank, kind: Kind, freq: seq<real>, k: nat, j: int)
    requires fb.Valid() && kind.Valid() && |freq| == fb.n && k < 8 && !(0 <= j < 2 * fb.S())
    ensures BlockAt(fb, kind, freq, k, j) == 0.0
  {
  }

  lemma {:induction false} PlacedAhead(fb: Bank, kind: Kind, freq: seq<real>, m: nat, i: int, t: nat)
    requires fb.Valid() && kind.Valid() && |freq| == fb.n && m <= t <= 8
    requires i < Start(fb, m)
    ensures Placed(fb, kind, freq, t, i) == Placed(fb, kind, freq, m, i)
    decreases t
  {
    if m < t {
      hide BlockAt;
      hide fb.Valid;
      BlocksFit(fb.S(), m, t - 1);
      PlacedAhead(fb, kind, freq, m, i, t - 1);
      OutsideBlock(fb, kind, freq, t - 1, i - Start(fb, t - 1));
    }
  }

  /** At r samples into the m-th stretch, block m rises while block m - 1 falls. */
  lemma {:induction false} TwoBlocksMeet(fb: Bank, kind: Kind, freq: seq<real>, m: nat, r: nat)
    requires fb.Valid() && kind.Valid() && |freq| == fb.n && m <= 8 && r < fb.S()
    ensures Placed(fb, kind, freq, 8, Start(fb, m) + r)
         == (if m > 0 then BlockAt(fb, kind, freq, m - 1, fb.S() + r) else 0.0)
          + (if m < 8 then BlockAt(fb, kind, freq, m, r) else 0.0)
  {
    hide BlockAt;
    hide fb.Valid;
    var i := Start(fb, m) + r;
    if m < 8 {
      PlacedAhead(fb, kind, freq, m + 1, i, 8);
    }
    if m > 0 {
      PlacedBehind(fb, kind, freq, m - 1, i);
    }
  }

  // ----- the encoder's half, and what aliasing leaves of a frame

  /** What an inverse transform makes of a forward one: each half folded onto itself. */
  function Alias(x: seq<real>): (y: seq<real>)
    requires |x| % 2 == 0
    ensures |y| == |x|
  {
    var n := |x| / 2;
    seq(|x|, i requires 0 <= i < |x| => if i < n then x[i] - x[n - 1 - i] else x[i] + x[3 * n - 1 - i])
  }

  /** The forward and inverse transforms leave time-domain aliasing only. */
  ghost predicate Aliasing(fb: Bank) {
    && (forall x {:trigger fb.mdct(x)} :: |x| == 2 * fb.n ==> fb.imdct(fb.mdct(x)) == Alias(x))
    && (forall x {:trigger fb.mdctShort(x)} :: |x| == 2 * fb.S() ==> fb.imdctShort(fb.mdctShort(x)) == Alias(x))
  }

  /** w[i] squared and w[L - 1 - i] squared make one. */
  ghost predicate PowerComplementary(w: seq<real>) {
    forall i :: 0 <= i < |w| ==> Complements(w, i)
  }

  predicate Complements(w: seq<real>, i: nat)
    requires i < |w|
  {
    MulF(w[i], w[i]) + MulF(w[|w| - 1 - i], w[|w| - 1 - i]) == 1.0
  }

  ghost predicate Princen(fb: Bank)
    requires fb.Valid()
  {
    && (forall h :: 0 <= h < 2 ==> PowerComplementary(fb.long[h]))
    && (forall h :: 0 <= h < 2 ==> PowerComplementary(fb.short[h]))
  }

  /** The samples under short block k of a frame. */
  function Under(fb: Bank, x: seq<real>, k: nat): (r: seq<real>)
    requires fb.Valid() && |x| == 2 * fb.n && k < 8
    ensures |r| == 2 * fb.S()
  {
    EightBlocks(fb, k);
    x[Start(fb, k)..Start(fb, k) + 2 * fb.S()]
  }

  function ShortSpectrum(fb: Bank, kind: Kind, x: seq<real>, k: nat): (f: seq<real>)
    requires fb.Valid() && kind.Valid() && |x| == 2 * fb.n && k < 8
    ensures |f| == fb.S()
  {
    fb.mdctShort(Windowed(Slope(fb, kind, k), ShortWindow(fb, kind), Under(fb, x, k)))
  }

  function ShortSpectra(fb: Bank, kind: Kind, x: seq<real>, m: nat): (f: seq<real>)
    requires fb.Valid() && kind.Valid() && |x| == 2 * fb.n && m <= 8
    ensures |f| == Blocks(fb.S(), m)
  {
    if m == 0 then [] else ShortSpectra(fb, kind, x, m - 1) + ShortSpectrum(fb, kind, x, m - 1)
  }

  /** The coefficients of the frame over the 2n samples x. */
  function Analysis(fb: Bank, kind: Kind, x: seq<real>): (f: seq<real>)
    requires fb.Valid() && kind.Valid() && |x| == 2 * fb.n
    ensures |f| == fb.n
  {
    if kind.sequence.EightShort? then
      Sizes(fb);
      BlocksIs(fb.S(), 8);
      ShortSpectra(fb, kind, x, 8)
    else fb.mdct(Windowed(Left(fb, kind), Right(fb, kind), x))
  }

  lemma {:induction false} SpectraPrefix(fb: Bank, kind: Kind, x: seq<real>, k: nat, m: nat)
    requires fb.Valid() && kind.Valid() && |x| == 2 * fb.n && k < m <= 8
    ensures Blocks(fb.S(), k) + fb.S() <= Blocks(fb.S(), m)
    ensures ShortSpectra(fb, kind, x, m)[Blocks(fb.S(), k)..Blocks(fb.S(), k) + fb.S()] == ShortSpectrum(fb, kind, x, k)
    decreases m
  {
    hide ShortSpectrum;
    hide fb.Valid;
    BlocksFit(fb.S(), k, m - 1);
    var lo := Blocks(fb.S(), k);
    var a, b := ShortSpectra(fb, kind, x, m - 1), ShortSpectrum(fb, kind, x, m - 1);
    if k < m - 1 {
      SpectraPrefix(fb, kind, x, k, m - 1);
      assert (a + b)[lo..lo + fb.S()] == a[lo..lo + fb.S()];
    } else {
      assert (a + b)[lo..lo + fb.S()] == b;
    }
  }

  /** What a rising slope l leaves of the samples a under it, at i. */
  function Rise(l: seq<real>, a: seq<real>, i: nat): real
    requires i < |l| == |a|
  {
    MulF(MulF(a[i], l[i]) - MulF(a[|l| - 1 - i], l[|l| - 1 - i]), l[i])
  }

  /** What a falling slope leaves of the samples b under it; r is the slope backwards. */
  function Fall(r: seq<real>, b: seq<real>, i: nat): real
    requires i < |r| == |b|
  {
    MulF(MulF(b[i], r[|r| - 1 - i]) + MulF(b[|r| - 1 - i], r[i]), r[|r| - 1 - i])
  }

  /** Window, transform, transform back, window again. */
  lemma ThereAndBack(l: seq<real>, r: seq<real>, x: seq<real>, i: nat)
    requires |l| == |r| && |x| == 2 * |l| && i < |l|
    ensures Windowed(l, r, Alias(Windowed(l, r, x)))[i] == Rise(l, x[..|l|], i)
    ensures Windowed(l, r, Alias(Windowed(l, r, x)))[|l| + i] == Fall(r, x[|l|..], i)
  {
    hide *;
    var y := Windowed(l, r, x);
    Folded(y, |l|, i);
    UnderWindow(l, r, x, i);
    UnderWindow(l, r, x, |l| - 1 - i);
    UnderWindow(l, r, Alias(y), i);
    Slopes(l, r, x, i);
  }

  lemma Slopes(l: seq<real>, r: seq<real>, x: seq<real>, i: nat)
    requires |l| == |r| && |x| == 2 * |l| && i < |l|
    ensures Rise(l, x[..|l|], i) == MulF(MulF(x[i], l[i]) - MulF(x[|l| - 1 - i], l[|l| - 1 - i]), l[i])
    ensures Fall(r, x[|l|..], i)
         == MulF(MulF(x[|l| + i], r[|l| - 1 - i]) + MulF(x[2 * |l| - 1 - i], r[i]), r[|l| - 1 - i])
  {
    hide MulF;
  }

  lemma UnderWindow(l: seq<real>, r: seq<real>, x: seq<real>, i: nat)
    requires |l| == |r| && |x| == 2 * |l| && i < |l|
    ensures Windowed(l, r, x)[i] == MulF(x[i], l[i])
    ensures Windowed(l, r, x)[|l| + i] == MulF(x[|l| + i], r[|l| - 1 - i])
  {
    hide MulF;
  }

  lemma Folded(y: seq<real>, n: nat, i: nat)
    requires |y| == 2 * n && i < n
    ensures Alias(y)[i] == y[i] - y[n - 1 - i]
    ensures Alias(y)[n + i] == y[n + i] + y[2 * n - 1 - i]
  {
  }

  /** Time-domain alias cancellation: a falling slope and the rising slope over it. */
  lemma Cancellation(w: seq<real>, b: seq<real>, i: nat)
    requires i < |w| == |b| && Complements(w, i)
    ensures Fall(w, b, i) + Rise(w, b, i) == b[i]
  {
    var u, v, p, q := w[i], w[|w| - 1 - i], b[i], b[|w| - 1 - i];
    hide MulF;
    Distribute(p, v, q, u);
    Collect(p, u, v);
  }

  lemma Distribute(p: real, v: real, q: real, u: real)
    ensures MulF(MulF(p, v) + MulF(q, u), v) + MulF(MulF(p, u) - MulF(q, v), u)
         == MulF(p, MulF(u, u)) + MulF(p, MulF(v, v))
  {
  }

  lemma Collect(p: real, u: real, v: real)
    requires MulF(u, u) + MulF(v, v) == 1.0
    ensures MulF(p, MulF(u, u)) + MulF(p, MulF(v, v)) == p
  {
    assert MulF(p, MulF(u, u) + MulF(v, v)) == p;
  }

  // ----- a whole frame of any kind leaves the same two slopes

  lemma BlockResponse(fb: Bank, kind: Kind, x: seq<real>, k: nat, r: nat)
    requires fb.Valid() && kind.Valid() && Aliasing(fb) && kind.sequence.EightShort?
    requires |x| == 2 * fb.n && k < 8 && r < fb.S()
    ensures BlockAt(fb, kind, Analysis(fb, kind, x), k, r) == Rise(Slope(fb, kind, k), Under(fb, x, k)[..fb.S()], r)
    ensures BlockAt(fb, kind, Analysis(fb, kind, x), k, fb.S() + r)
         == Fall(ShortWindow(fb, kind), Under(fb, x, k)[fb.S()..], r)
  {
    hide *;
    InsideBlock(fb, kind, Analysis(fb, kind, x), k, r);
    InsideBlock(fb, kind, Analysis(fb, kind, x), k, fb.S() + r);
    BlockThereAndBack(fb, kind, x, k);
    ThereAndBack(Slope(fb, kind, k), ShortWindow(fb, kind), Under(fb, x, k), r);
  }

  lemma InsideBlock(fb: Bank, kind: Kind, freq: seq<real>, k: nat, j: nat)
    requires fb.Valid() && kind.Valid() && |freq| == fb.n && k < 8 && j < 2 * fb.S()
    ensures BlockAt(fb, kind, freq, k, j) == Block(fb, kind, freq, k)[j]
  {
  }

  lemma BlockThereAndBack(fb: Bank, kind: Kind, x: seq<real>, k: nat)
    requires fb.Valid() && kind.Valid() && Aliasing(fb) && kind.sequence.EightShort?
    requires |x| == 2 * fb.n && k < 8
    ensures Block(fb, kind, Analysis(fb, kind, x), k)
         == Windowed(Slope(fb, kind, k), ShortWindow(fb, kind),
                     Alias(Windowed(Slope(fb, kind, k), ShortWindow(fb, kind), Under(fb, x, k))))
  {
    hide *;
    CoefficientsAre(fb, kind, x, k);
    BlockOfSpectrum(fb, kind, Analysis(fb, kind, x), x, k);
  }

  lemma BlockOfSpectrum(fb: Bank, kind: Kind, freq: seq<real>, x: seq<real>, k: nat)
    requires fb.Valid() && kind.Valid() && Aliasing(fb) && |x| == 2 * fb.n && k < 8
    requires |freq| == fb.n && Coefficients(fb, freq, k) == ShortSpectrum(fb, kind, x, k)
    ensures Block(fb, kind, freq, k)
         == Windowed(Slope(fb, kind, k), ShortWindow(fb, kind),
                     Alias(Windowed(Slope(fb, kind, k), ShortWindow(fb, kind), Under(fb, x, k))))
  {
    hide Windowed, Alias, Under, Slope, ShortWindow, Coefficients;
  }

  lemma CoefficientsAre(fb: Bank, kind: Kind, x: seq<real>, k: nat)
    requires fb.Valid() && kind.Valid() && kind.sequence.EightShort? && |x| == 2 * fb.n && k < 8
    ensures Coefficients(fb, Analysis(fb, kind, x), k) == ShortSpectrum(fb, kind, x, k)
  {
    hide ShortSpectrum, ShortSpectra;
    hide fb.Valid;
    SpectraPrefix(fb, kind, x, k, 8);
  }

  /** Where in the eight blocks sample i falls. */
  lemma {:induction false} Stretch(fb: Bank, i: nat, t: nat) returns (m: nat, r: nat)
    requires fb.Valid() && t <= 8 && Start(fb, 0) <= i < Start(fb, t) + fb.S()
    ensures m <= t && r < fb.S() && i == Start(fb, m) + r
    decreases t
  {
    hide fb.Valid;
    if i >= Start(fb, t) {
      m, r := t, i - Start(fb, t);
    } else {
      m, r := Stretch(fb, i, t - 1);
    }
  }

  /** Blocks m - 1 and m cancel each other's aliasing. */
  lemma MiddleResponse(fb: Bank, kind: Kind, x: seq<real>, m: nat, r: nat)
    requires fb.Valid() && kind.Valid() && Aliasing(fb) && Princen(fb) && kind.sequence.EightShort?
    requires |x| == 2 * fb.n && 0 < m < 8 && r < fb.S()
    ensures Start(fb, m) + r < 2 * fb.n ==>
      Placed(fb, kind, Analysis(fb, kind, x), 8, Start(fb, m) + r) == x[Start(fb, m) + r]
  {
    hide *;
    TwoBlocksMeet(fb, kind, Analysis(fb, kind, x), m, r);
    BlockResponse(fb, kind, x, m - 1, r);
    BlockResponse(fb, kind, x, m, r);
    ShortWindowComplement(fb, kind, r);
    MiddleSamples(fb, kind, x, m, r);
    Cancellation(ShortWindow(fb, kind), Under(fb, x, m)[..fb.S()], r);
  }

  lemma ShortWindowComplement(fb: Bank, kind: Kind, r: nat)
    requires fb.Valid() && kind.Valid() && Princen(fb) && r < fb.S()
    ensures Complements(ShortWindow(fb, kind), r)
  {
    hide Princen, Complements;
    ShortComplement(fb, kind.shape, r);
  }

  lemma ShortComplement(fb: Bank, h: nat, r: nat)
    requires fb.Valid() && Princen(fb) && h < 2 && r < fb.S()
    ensures Complements(fb.short[h], r)
  {
    assert PowerComplementary(fb.short[h]);
  }

  lemma MiddleSamples(fb: Bank, kind: Kind, x: seq<real>, m: nat, r: nat)
    requires fb.Valid() && kind.Valid() && |x| == 2 * fb.n && 0 < m < 8 && r < fb.S()
    ensures Start(fb, m) + r < 2 * fb.n && Under(fb, x, m)[..fb.S()][r] == x[Start(fb, m) + r]
    ensures Under(fb, x, m - 1)[fb.S()..] == Under(fb, x, m)[..fb.S()]
    ensures Slope(fb, kind, m) == ShortWindow(fb, kind)
  {
    hide *;
    EightBlocks(fb, m);
    EightBlocks(fb, m - 1);
    StartsMeet(fb, kind, m);
    UnderIs(fb, x, m);
    UnderIs(fb, x, m - 1);
    Overlapping(x, Start(fb, m - 1), fb.S(), r);
  }

  lemma StartsMeet(fb: Bank, kind: Kind, m: nat)
    requires fb.Valid() && kind.Valid() && 0 < m < 8
    ensures Start(fb, m) == Start(fb, m - 1) + fb.S() && Slope(fb, kind, m) == ShortWindow(fb, kind)
  {
    hide fb.Valid, fb.S, fb.Flat;
  }

  lemma UnderIs(fb: Bank, x: seq<real>, m: nat)
    requires fb.Valid() && |x| == 2 * fb.n && m < 8
    ensures Start(fb, m) + 2 * fb.S() <= |x| && Under(fb, x, m) == x[Start(fb, m)..Start(fb, m) + 2 * fb.S()]
  {
    EightBlocks(fb, m);
    hide fb.Valid, fb.S, fb.Flat, Blocks;
  }

  /** Two stretches of which the second starts in the middle of the first. */
  lemma Overlapping(x: seq<real>, a: nat, s: nat, r: nat)
    requires a + 3 * s <= |x| && r < s
    ensures x[a + s..a + s + 2 * s][..s][r] == x[a + s + r]
    ensures x[a..a + 2 * s][s..] == x[a + s..a + s + 2 * s][..s]
  {
  }

  lemma RiseOf(fb: Bank, w: seq<real>, a: seq<real>, i: nat)
    requires fb.Valid() && |w| == fb.S() && |a| == fb.n && i < fb.n
    ensures i < fb.Flat() ==> Rise(ShortEdge(fb, w), a, i) == 0.0
    ensures i >= fb.Flat() + fb.S() ==> Rise(ShortEdge(fb, w), a, i) == a[i]
    ensures fb.Flat() <= i < fb.Flat() + fb.S() ==>
      Rise(ShortEdge(fb, w), a, i) == Rise(w, a[fb.Flat()..fb.Flat() + fb.S()], i - fb.Flat())
  {
    Sizes(fb);
    hide fb.Valid, MulF;
    if i < fb.Flat() || i >= fb.Flat() + fb.S() {
      Extremes(a[i], a[fb.n - 1 - i]);
    }
  }

  lemma FallOf(fb: Bank, w: seq<real>, b: seq<real>, i: nat)
    requires fb.Valid() && |w| == fb.S() && |b| == fb.n && i < fb.n
    ensures i < fb.Flat() ==> Fall(ShortEdge(fb, w), b, i) == b[i]
    ensures i >= fb.Flat() + fb.S() ==> Fall(ShortEdge(fb, w), b, i) == 0.0
    ensures fb.Flat() <= i < fb.Flat() + fb.S() ==>
      Fall(ShortEdge(fb, w), b, i) == Fall(w, b[fb.Flat()..fb.Flat() + fb.S()], i - fb.Flat())
  {
    Sizes(fb);
    hide fb.Valid, MulF;
    if i < fb.Flat() || i >= fb.Flat() + fb.S() {
      Extremes(b[i], b[fb.n - 1 - i]);
    }
  }

  lemma Extremes(p: real, q: real)
    ensures MulF(MulF(p, 1.0) - MulF(q, 0.0), 1.0) == p == MulF(MulF(p, 1.0) + MulF(q, 0.0), 1.0)
    ensures MulF(MulF(p, 0.0) - MulF(q, 1.0), 0.0) == 0.0 == MulF(MulF(p, 0.0) + MulF(q, 1.0), 0.0)
  {
  }

  lemma Starts(fb: Bank, k: nat, m: nat)
    requires fb.Valid() && k <= m <= 8
    ensures fb.n == 8 * fb.S() == 2 * fb.Flat() + fb.S()
    ensures Start(fb, 0) == fb.Flat() && Start(fb, 4) + fb.S() > fb.n
    ensures Start(fb, 7) + fb.S() == Start(fb, 8) == fb.n + fb.Flat()
    ensures k < m ==> Start(fb, k) + fb.S() <= Start(fb, m)
  {
    hide fb.Valid;
    Sizes(fb);
    BlocksFit(fb.S(), k, m);
    BlocksIs(fb.S(), 4);
    BlocksIs(fb.S(), 7);
    BlocksIs(fb.S(), 8);
  }

  /** The first half of a frame of eight short blocks. */
  lemma ShortRise(fb: Bank, kind: Kind, x: seq<real>, i: nat)
    requires fb.Valid() && kind.Valid() && Aliasing(fb) && Princen(fb) && kind.sequence.EightShort?
    requires |x| == 2 * fb.n && i < fb.n
    ensures Placed(fb, kind, Analysis(fb, kind, x), 8, i) == Rise(ShortEdge(fb, Slope(fb, kind, 0)), x[..fb.n], i)
  {
    hide *;
    Starts(fb, 0, 8);
    RiseOf(fb, Slope(fb, kind, 0), x[..fb.n], i);
    if i < fb.Flat() {
      FirstBlockAhead(fb, kind, Analysis(fb, kind, x), i);
    } else {
      var m, r := Stretch(fb, i, 4);
      if m == 0 {
        TwoBlocksMeet(fb, kind, Analysis(fb, kind, x), 0, r);
        BlockResponse(fb, kind, x, 0, r);
        FirstSamples(fb, x);
      } else {
        Starts(fb, 0, m);
        MiddleResponse(fb, kind, x, m, r);
      }
    }
  }

  lemma FirstBlockAhead(fb: Bank, kind: Kind, freq: seq<real>, i: nat)
    requires fb.Valid() && kind.Valid() && |freq| == fb.n && i < fb.Flat()
    ensures Placed(fb, kind, freq, 8, i) == 0.0
  {
    hide fb.Valid, BlockAt;
    PlacedAhead(fb, kind, freq, 0, i, 8);
  }

  lemma FirstSamples(fb: Bank, x: seq<real>)
    requires fb.Valid() && |x| == 2 * fb.n
    ensures fb.Flat() + fb.S() <= fb.n
    ensures Under(fb, x, 0)[..fb.S()] == x[..fb.n][fb.Flat()..fb.Flat() + fb.S()]
  {
    Starts(fb, 0, 8);
    hide fb.Valid, Start;
    var at, s := fb.Flat(), fb.S();
    Slices(x, fb.n, at, s);
  }

  lemma Slices<T>(x: seq<T>, n: nat, at: nat, s: nat)
    requires at + s <= n && at + 2 * s <= |x| && n <= |x|
    ensures x[at..at + 2 * s][..s] == x[..n][at..at + s]
  {
    assert x[at..at + 2 * s][..s] == x[at..at + s];
    assert x[..n][at..at + s] == x[at..at + s];
  }

  lemma LastSamples(fb: Bank, x: seq<real>)
    requires fb.Valid() && |x| == 2 * fb.n
    ensures fb.Flat() + fb.S() <= fb.n
    ensures Under(fb, x, 7)[fb.S()..] == x[fb.n..][fb.Flat()..fb.Flat() + fb.S()]
  {
    Starts(fb, 7, 8);
    hide fb.Valid, Start;
  }

  /** The second half of a frame of eight short blocks. */
  lemma ShortFall(fb: Bank, kind: Kind, x: seq<real>, i: nat)
    requires fb.Valid() && kind.Valid() && Aliasing(fb) && Princen(fb) && kind.sequence.EightShort?
    requires |x| == 2 * fb.n && i < fb.n
    ensures Placed(fb, kind, Analysis(fb, kind, x), 8, fb.n + i)
         == Fall(ShortEdge(fb, ShortWindow(fb, kind)), x[fb.n..], i)
  {
    hide *;
    Starts(fb, 0, 8);
    FallOf(fb, ShortWindow(fb, kind), x[fb.n..], i);
    if i >= fb.Flat() + fb.S() {
      PlacedBehind(fb, kind, Analysis(fb, kind, x), 8, fb.n + i);
    } else {
      var m, r := Stretch(fb, fb.n + i, 8);
      if m == 8 {
        TwoBlocksMeet(fb, kind, Analysis(fb, kind, x), 8, r);
        BlockResponse(fb, kind, x, 7, r);
        LastSamples(fb, x);
      } else if m == 0 {
        assert false;
      } else {
        Starts(fb, m, 8);
        MiddleResponse(fb, kind, x, m, r);
      }
    }
  }

  /** Whatever its sequence, a frame leaves the slopes of its window on its two halves. */
  lemma FrameResponse(fb: Bank, kind: Kind, x: seq<real>, i: nat)
    requires fb.Valid() && kind.Valid() && Aliasing(fb) && Princen(fb) && |x| == 2 * fb.n && i < fb.n
    ensures Frame(fb, kind, Analysis(fb, kind, x))[i] == Rise(Left(fb, kind), x[..fb.n], i)
    ensures Frame(fb, kind, Analysis(fb, kind, x))[fb.n + i] == Fall(Right(fb, kind), x[fb.n..], i)
  {
    hide *;
    if kind.sequence.EightShort? {
      ShortRise(fb, kind, x, i);
      ShortFall(fb, kind, x, i);
      ShortFrame(fb, kind, Analysis(fb, kind, x), i);
      ShortFrame(fb, kind, Analysis(fb, kind, x), fb.n + i);
    } else {
      ThereAndBack(Left(fb, kind), Right(fb, kind), x, i);
      LongThereAndBack(fb, kind, x);
    }
  }

  lemma ShortFrame(fb: Bank, kind: Kind, freq: seq<real>, i: nat)
    requires fb.Valid() && kind.Valid() && |freq| == fb.n && i < 2 * fb.n && kind.sequence.EightShort?
    ensures Frame(fb, kind, freq)[i] == Placed(fb, kind, freq, 8, i)
    ensures Left(fb, kind) == ShortEdge(fb, Slope(fb, kind, 0))
    ensures Right(fb, kind) == ShortEdge(fb, ShortWindow(fb, kind))
  {
    hide Placed, ShortEdge;
  }

  lemma LongThereAndBack(fb: Bank, kind: Kind, x: seq<real>)
    requires fb.Valid() && kind.Valid() && Aliasing(fb) && |x| == 2 * fb.n && !kind.sequence.EightShort?
    ensures Frame(fb, kind, Analysis(fb, kind, x))
         == Windowed(Left(fb, kind), Right(fb, kind), Alias(Windowed(Left(fb, kind), Right(fb, kind), x)))
  {
    hide Windowed, Alias, Left, Right;
  }

  // ----- runs of frames

  /** Neighbouring frames agree on the window between them. */
  predicate Follows(fb: Bank, a: Kind, b: Kind)
    requires fb.Valid() && a.Valid() && b.Valid()
  {
    && b.prev == a.shape
    && ((a.sequence.OnlyLong? || a.sequence.LongStop?) <==> (b.sequence.OnlyLong? || b.sequence.LongStart?))
  }

  predicate Legal(fb: Bank, kinds: seq<Kind>)
    requires fb.Valid()
  {
    && (forall k :: 0 <= k < |kinds| ==> kinds[k].Valid())
    && (forall k :: 0 < k < |kinds| ==> Follows(fb, kinds[k - 1], kinds[k]))
  }

  /**
    * The decoder over a run of frames: each frame's first half is added to the
    * overlap and its second half becomes the overlap.
    */
  function Decoded(fb: Bank, kinds: seq<Kind>, spectra: seq<seq<real>>, overlap: seq<real>): (out: seq<seq<real>>)
    requires fb.Valid() && Legal(fb, kinds) && |spectra| == |kinds| && |overlap| == fb.n
    requires forall k :: 0 <= k < |spectra| ==> |spectra[k]| == fb.n
    ensures |out| == |kinds|
  {
    if kinds == [] then []
    else
      var z := Frame(fb, kinds[0], spectra[0]);
      [seq(fb.n, i requires 0 <= i < fb.n => overlap[i] + z[i])]
        + Decoded(fb, kinds[1..], spectra[1..], z[fb.n..])
  }

  /** One overlap-add is one step of the decoder. */
  lemma DecoderStep(fb: Bank, kinds: seq<Kind>, spectra: seq<seq<real>>, overlap: seq<real>, out: seq<real>, after: seq<real>)
    requires fb.Valid() && Legal(fb, kinds) && |spectra| == |kinds| && kinds != []
    requires forall k :: 0 <= k < |spectra| ==> |spectra[k]| == fb.n
    requires |overlap| == |out| == |after| == fb.n
    requires OverlapAdded(fb.n, Frame(fb, kinds[0], spectra[0]), overlap, out, after)
    ensures Legal(fb, kinds[1..])
    ensures Decoded(fb, kinds, spectra, overlap) == [out] + Decoded(fb, kinds[1..], spectra[1..], after)
  {
    hide Frame, fb.Valid;
    var z := Frame(fb, kinds[0], spectra[0]);
    assert after == z[fb.n..];
    assert out == Decoded(fb, kinds, spectra, overlap)[0];
  }

  /** Frame k covers blocks k and k + 1 of the signal. */
  function Encoded(fb: Bank, kinds: seq<Kind>, blocks: seq<seq<real>>): (spectra: seq<seq<real>>)
    requires fb.Valid() && Legal(fb, kinds) && |blocks| == |kinds| + 1
    requires forall k :: 0 <= k < |blocks| ==> |blocks[k]| == fb.n
    ensures |spectra| == |kinds|
    ensures forall k :: 0 <= k < |spectra| ==> |spectra[k]| == fb.n
  {
    seq(|kinds|, k requires 0 <= k < |kinds| => Analysis(fb, kinds[k], blocks[k] + blocks[k + 1]))
  }

  lemma EdgeComplements(fb: Bank, kind: Kind, i: nat)
    requires fb.Valid() && kind.Valid() && Princen(fb) && i < fb.n
    ensures Complements(Left(fb, kind), i)
  {
    if kind.sequence.OnlyLong? || kind.sequence.LongStart? {
      assert PowerComplementary(fb.long[kind.prev]);
    } else {
      ShortEdgeComplements(fb, kind.prev, i);
    }
  }

  lemma ShortEdgeComplements(fb: Bank, h: nat, i: nat)
    requires fb.Valid() && h < 2 && Princen(fb) && i < fb.n
    ensures Complements(ShortEdge(fb, fb.short[h]), i)
  {
    Sizes(fb);
    hide fb.Valid, Princen, MulF, ShortEdge, Complements, PowerComplementary;
    var w := fb.short[h];
    EdgeAt(fb, w, i);
    EdgeAt(fb, w, fb.n - 1 - i);
    if fb.Flat() <= i < fb.Flat() + fb.S() {
      ShortComplement(fb, h, i - fb.Flat());
      SameSum(w, i - fb.Flat(), ShortEdge(fb, w), i);
    } else {
      FlatComplement(ShortEdge(fb, w), i);
    }
  }

  lemma EdgeAt(fb: Bank, w: seq<real>, i: nat)
    requires fb.Valid() && |w| == fb.S() && i < fb.n
    ensures ShortEdge(fb, w)[i] ==
      if i < fb.Flat() then 0.0 else if i < fb.Flat() + fb.S() then w[i - fb.Flat()] else 1.0
  {
  }

  lemma SameSum(w: seq<real>, j: nat, e: seq<real>, i: nat)
    requires j < |w| && i < |e| && Complements(w, j) && e[i] == w[j] && e[|e| - 1 - i] == w[|w| - 1 - j]
    ensures Complements(e, i)
  {
    hide MulF;
  }

  lemma FlatComplement(e: seq<real>, i: nat)
    requires i < |e| && ((e[i] == 0.0 && e[|e| - 1 - i] == 1.0) || (e[i] == 1.0 && e[|e| - 1 - i] == 0.0))
    ensures Complements(e, i)
  {
    hide MulF;
    OneAndZero();
  }

  lemma OneAndZero()
    ensures MulF(1.0, 1.0) == 1.0 && MulF(0.0, 0.0) == 0.0
  {
  }

  /** The frame before left the falling slope of the first block, or it is the first frame. */
  ghost predicate Carries(fb: Bank, kind: Kind, block: seq<real>, overlap: seq<real>)
    requires fb.Valid() && kind.Valid()
  {
    |block| == |overlap| == fb.n && forall i :: 0 <= i < fb.n ==> overlap[i] == Fall(Left(fb, kind), block, i)
  }

  lemma FirstBlock(fb: Bank, kind: Kind, a: seq<real>, b: seq<real>, overlap: seq<real>, i: nat)
    requires fb.Valid() && kind.Valid() && Aliasing(fb) && Princen(fb) && i < fb.n == |b|
    requires Carries(fb, kind, a, overlap)
    ensures overlap[i] + Frame(fb, kind, Analysis(fb, kind, a + b))[i] == a[i]
  {
    FrameResponse(fb, kind, a + b, i);
    assert (a + b)[..fb.n] == a;
    assert overlap[i] == Fall(Left(fb, kind), a, i);
    hide *;
    EdgeComplements(fb, kind, i);
    Cancellation(Left(fb, kind), a, i);
  }

  lemma NextCarries(fb: Bank, k: Kind, next: Kind, a: seq<real>, b: seq<real>)
    requires fb.Valid() && k.Valid() && next.Valid() && Aliasing(fb) && Princen(fb) && |a| == |b| == fb.n
    requires Follows(fb, k, next)
    ensures Carries(fb, next, b, Frame(fb, k, Analysis(fb, k, a + b))[fb.n..])
  {
    var z := Frame(fb, k, Analysis(fb, k, a + b));
    assert (a + b)[fb.n..] == b;
    assert Left(fb, next) == Right(fb, k) by {
      hide ShortEdge;
    }
    hide Left, Right, Fall, Frame, Analysis, Aliasing, Princen, fb.Valid;
    forall i | 0 <= i < fb.n ensures z[fb.n..][i] == Fall(Left(fb, next), b, i) {
      hide Rise;
      FrameResponse(fb, k, a + b, i);
    }
  }

  lemma EncodedRest(fb: Bank, kinds: seq<Kind>, blocks: seq<seq<real>>)
    requires fb.Valid() && Legal(fb, kinds) && |blocks| == |kinds| + 1 && kinds != []
    requires forall k :: 0 <= k < |blocks| ==> |blocks[k]| == fb.n
    ensures Legal(fb, kinds[1..])
    ensures Encoded(fb, kinds, blocks)[0] == Analysis(fb, kinds[0], blocks[0] + blocks[1])
    ensures Encoded(fb, kinds, blocks)[1..] == Encoded(fb, kinds[1..], blocks[1..])
  {
    hide Analysis, fb.Valid;
  }

  /** The first frame out, and the rest of the run. */
  lemma DecodedStep(fb: Bank, kinds: seq<Kind>, blocks: seq<seq<real>>, overlap: seq<real>)
    requires fb.Valid() && Legal(fb, kinds) && |blocks| == |kinds| + 1 && kinds != []
    requires forall k :: 0 <= k < |blocks| ==> |blocks[k]| == fb.n
    requires |overlap| == fb.n
    ensures Legal(fb, kinds[1..])
    ensures var z := Frame(fb, kinds[0], Analysis(fb, kinds[0], blocks[0] + blocks[1]));
            var out := Decoded(fb, kinds, Encoded(fb, kinds, blocks), overlap);
            && |out[0]| == fb.n && (forall i :: 0 <= i < fb.n ==> out[0][i] == overlap[i] + z[i])
            && out[1..] == Decoded(fb, kinds[1..], Encoded(fb, kinds[1..], blocks[1..]), z[fb.n..])
  {
    EncodedRest(fb, kinds, blocks);
    hide Analysis, Frame, Encoded, fb.Valid;
  }

  /**
    * Once the overlap holds the falling slope of the first block, every frame
    * of a legal run gives back its first block.
    */
  lemma {:induction false} Reconstructs(fb: Bank, kinds: seq<Kind>, blocks: seq<seq<real>>, overlap: seq<real>)
    requires fb.Valid() && Aliasing(fb) && Princen(fb) && Legal(fb, kinds) && |blocks| == |kinds| + 1
    requires forall k :: 0 <= k < |blocks| ==> |blocks[k]| == fb.n
    requires |overlap| == fb.n && (kinds != [] ==> Carries(fb, kinds[0], blocks[0], overlap))
    ensures Decoded(fb, kinds, Encoded(fb, kinds, blocks), overlap) == blocks[..|kinds|]
    decreases |kinds|
  {
    hide Frame, Analysis, Carries, Decoded, Encoded, Follows, Aliasing, Princen, fb.Valid;
    if kinds != [] {
      var k := kinds[0];
      var out := Decoded(fb, kinds, Encoded(fb, kinds, blocks), overlap);
      DecodedStep(fb, kinds, blocks, overlap);
      forall i | 0 <= i < fb.n ensures out[0][i] == blocks[0][i] {
        FirstBlock(fb, k, blocks[0], blocks[1], overlap, i);
      }
      if |kinds| > 1 {
        NextCarries(fb, k, kinds[1], blocks[0], blocks[1]);
      }
      Reconstructs(fb, kinds[1..], blocks[1..], Frame(fb, k, Analysis(fb, k, blocks[0] + blocks[1]))[fb.n..]);
      assert out[0] == blocks[0];
      Prepend(out, blocks);
    }
  }

  lemma Prepend<T>(out: seq<T>, all: seq<T>)
    requires 0 < |out| <= |all| && out[0] == all[0] && out[1..] == all[1..][..|out| - 1]
    ensures out == all[..|out|]
  {
    forall k | 0 < k < |out| ensures out[k] == all[k] {
      assert out[1..][k - 1] == all[1..][..|out| - 1][k - 1];
    }
  }

  /**
    * Perfect reconstruction: whatever overlap the decoder starts with, a legal
    * run of any of the four window sequences gives the signal back one frame later.
    */
  lemma PerfectReconstruction(fb: Bank, kinds: seq<Kind>, blocks: seq<seq<real>>, overlap: seq<real>, k: nat)
    requires fb.Valid() && Aliasing(fb) && Princen(fb) && Legal(fb, kinds) && |blocks| == |kinds| + 1
    requires forall k :: 0 <= k < |blocks| ==> |blocks[k]| == fb.n
    requires |overlap| == fb.n && 0 < k < |kinds|
    ensures Decoded(fb, kinds, Encoded(fb, kinds, blocks), overlap)[k] == blocks[k]
  {
    hide Frame, Analysis, Carries, Decoded, Encoded, Follows, Aliasing, Princen, fb.Valid;
    var a := kinds[0];
    DecodedStep(fb, kinds, blocks, overlap);
    NextCarries(fb, a, kinds[1], blocks[0], blocks[1]);
    var rest := Frame(fb, a, Analysis(fb, a, blocks[0] + blocks[1]))[fb.n..];
    Reconstructs(fb, kinds[1..], blocks[1..], rest);
    var out := Decoded(fb, kinds, Encoded(fb, kinds, blocks), overlap);
    assert out[k] == out[1..][k - 1];
    assert blocks[1..][..|kinds| - 1][k - 1] == blocks[k];
  }
}
