/** filtbank.c: the loops of `ifilter_bank` and `filter_bank_ltp`. */
module FilterBankRun {
  import Arith
  import opened FilterBank

  // ----- halves with a long slope

  /** Adds the first half under a long slope, four samples a turn. */
  method AddLong(timeOut: array<real>, overlap: array<real>, buf: array<real>, w: seq<real>)
    requires timeOut.Length == overlap.Length == |w| && |w| % 4 == 0 && buf.Length >= |w|
    requires timeOut != overlap && timeOut != buf
    modifies timeOut
    ensures forall i :: 0 <= i < |w| ==> timeOut[i] == overlap[i] + MulF(buf[i], w[i])
  {
    hide MulF;
    var i := 0;
    while i < |w|
      invariant 0 <= i <= |w| && i % 4 == 0
      invariant forall j :: 0 <= j < i ==> timeOut[j] == overlap[j] + MulF(buf[j], w[j])
    {
      timeOut[i] := overlap[i] + MulF(buf[i], w[i]);
      timeOut[i + 1] := overlap[i + 1] + MulF(buf[i + 1], w[i + 1]);
      timeOut[i + 2] := overlap[i + 2] + MulF(buf[i + 2], w[i + 2]);
      timeOut[i + 3] := overlap[i + 3] + MulF(buf[i + 3], w[i + 3]);
      i := i + 4;
    }
  }

  /** Keeps the second half under a long slope, four samples a turn. */
  method SaveLong(overlap: array<real>, buf: array<real>, w: seq<real>)
    requires overlap.Length == |w| && |w| % 4 == 0 && buf.Length >= 2 * |w| && overlap != buf
    modifies overlap
    ensures forall i :: 0 <= i < |w| ==> overlap[i] == MulF(buf[|w| + i], w[|w| - 1 - i])
  {
    hide MulF;
    var n := |w|;
    var i := 0;
    while i < n
      invariant 0 <= i <= n && i % 4 == 0
      invariant forall j :: 0 <= j < i ==> overlap[j] == MulF(buf[n + j], w[n - 1 - j])
    {
      overlap[i] := MulF(buf[n + i], w[n - 1 - i]);
      overlap[i + 1] := MulF(buf[n + i + 1], w[n - 2 - i]);
      overlap[i + 2] := MulF(buf[n + i + 2], w[n - 3 - i]);
      overlap[i + 3] := MulF(buf[n + i + 3], w[n - 4 - i]);
      i := i + 4;
    }
  }

  /** The same half as LONG_STOP_SEQUENCE keeps it, one sample a turn. */
  method SaveStop(overlap: array<real>, buf: array<real>, w: seq<real>)
    requires overlap.Length == |w| && buf.Length >= 2 * |w| && overlap != buf
    modifies overlap
    ensures forall i :: 0 <= i < |w| ==> overlap[i] == MulF(buf[|w| + i], w[|w| - 1 - i])
  {
    hide MulF;
    for i := 0 to |w|
      invariant forall j :: 0 <= j < i ==> overlap[j] == MulF(buf[|w| + j], w[|w| - 1 - j])
    {
      overlap[i] := MulF(buf[|w| + i], w[|w| - 1 - i]);
    }
  }

  // ----- halves padded with ones and zeros around a short slope

  /** LONG_START_SEQUENCE: ones, the short slope, zeros. */
  method SaveStart(fb: Bank, overlap: array<real>, buf: array<real>, w: seq<real>)
    requires fb.Valid() && |w| == fb.S() && overlap.Length == fb.n && buf.Length >= 2 * fb.n && overlap != buf
    modifies overlap
    ensures forall i :: 0 <= i < fb.n ==> overlap[i] == MulF(buf[fb.n + i], ShortEdge(fb, w)[fb.n - 1 - i])
  {
    Sizes(fb);
    var n, s, flat := fb.n, fb.S(), fb.Flat();
    ghost var e := ShortEdge(fb, w);
    hide MulF, ShortEdge, fb.Valid;
    for i := 0 to flat
      invariant forall j :: 0 <= j < i ==> overlap[j] == MulF(buf[n + j], e[n - 1 - j])
    {
      overlap[i] := buf[n + i];
      MulOne(buf[n + i]);
      EdgeAt(fb, w, n - 1 - i);
    }
    for i := 0 to s
      invariant forall j :: 0 <= j < flat + i ==> overlap[j] == MulF(buf[n + j], e[n - 1 - j])
    {
      overlap[flat + i] := MulF(buf[n + flat + i], w[s - i - 1]);
      EdgeAt(fb, w, n - 1 - flat - i);
    }
    for i := 0 to flat
      invariant forall j :: 0 <= j < flat + s + i ==> overlap[j] == MulF(buf[n + j], e[n - 1 - j])
    {
      overlap[flat + s + i] := 0.0;
      MulZero(buf[n + flat + s + i]);
      EdgeAt(fb, w, n - 1 - flat - s - i);
    }
  }

  /** LONG_STOP_SEQUENCE: zeros, the short slope, ones. */
  method AddStop(fb: Bank, timeOut: array<real>, overlap: array<real>, buf: array<real>, w: seq<real>)
    requires fb.Valid() && |w| == fb.S() && timeOut.Length == overlap.Length == fb.n && buf.Length >= fb.n
    requires timeOut != overlap && timeOut != buf
    modifies timeOut
    ensures forall i :: 0 <= i < fb.n ==> timeOut[i] == overlap[i] + MulF(buf[i], ShortEdge(fb, w)[i])
  {
    Sizes(fb);
    var n, s, flat := fb.n, fb.S(), fb.Flat();
    ghost var e := ShortEdge(fb, w);
    hide *;
    for i := 0 to flat
      invariant forall j :: 0 <= j < i ==> timeOut[j] == overlap[j] + MulF(buf[j], e[j])
    {
      timeOut[i] := overlap[i];
      MulZero(buf[i]);
      EdgeAt(fb, w, i);
    }
    for i := 0 to s
      invariant forall j :: 0 <= j < flat + i ==> timeOut[j] == overlap[j] + MulF(buf[j], e[j])
    {
      timeOut[flat + i] := overlap[flat + i] + MulF(buf[flat + i], w[i]);
      EdgeAt(fb, w, flat + i);
    }
    for i := 0 to flat
      invariant forall j :: 0 <= j < flat + s + i ==> timeOut[j] == overlap[j] + MulF(buf[j], e[j])
    {
      timeOut[flat + s + i] := overlap[flat + s + i] + buf[flat + s + i];
      MulOne(buf[flat + s + i]);
      EdgeAt(fb, w, flat + s + i);
    }
  }

  // ----- EIGHT_SHORT_SEQUENCE

  lemma BlocksAre(s: nat)
    ensures Blocks(s, 0) == 0 && Blocks(s, 1) == s && Blocks(s, 2) == 2 * s && Blocks(s, 3) == 3 * s
    ensures Blocks(s, 4) == 4 * s && Blocks(s, 5) == 5 * s && Blocks(s, 6) == 6 * s && Blocks(s, 7) == 7 * s
    ensures Blocks(s, 8) == 8 * s
  {
    BlocksIs(s, 0);
    BlocksIs(s, 1);
    BlocksIs(s, 2);
    BlocksIs(s, 3);
    BlocksIs(s, 4);
    BlocksIs(s, 5);
    BlocksIs(s, 6);
    BlocksIs(s, 7);
    BlocksIs(s, 8);
  }

  /** buf holds short block k transformed back, at its place. */
  predicate Holds(fb: Bank, freq: seq<real>, buf: seq<real>, k: nat)
    requires fb.Valid() && |freq| == fb.n && k < 8 && |buf| >= 2 * fb.n
  {
    EightBlocks(fb, k);
    buf[2 * Blocks(fb.S(), k)..2 * Blocks(fb.S(), k) + 2 * fb.S()] == fb.imdctShort(Coefficients(fb, freq, k))
  }

  /** `faad_imdct` of one short block into the buffer. */
  method InverseShort(fb: Bank, freq: seq<real>, ghost k: nat, at: nat, buf: array<real>)
    requires fb.Valid() && |freq| == fb.n && k < 8 && at == Blocks(fb.S(), k) && buf.Length >= 2 * fb.n
    modifies buf
    ensures Holds(fb, freq, buf[..], k)
    ensures 2 * at <= buf.Length && forall j :: 0 <= j < 2 * at ==> buf[j] == old(buf[j])
  {
    EightBlocks(fb, k);
    var t := fb.imdctShort(freq[at..at + fb.S()]);
    assert |t| == 2 * fb.S();
    hide fb.Valid;
    for j := 0 to |t|
      invariant forall i :: 0 <= i < 2 * at ==> buf[i] == old(buf[i])
      invariant buf[2 * at..2 * at + j] == t[..j]
    {
      buf[2 * at + j] := t[j];
    }
    assert t[..|t|] == t;
  }

  lemma HoldsBelow(fb: Bank, freq: seq<real>, buf: seq<real>, buf': seq<real>, k: nat, at: nat)
    requires fb.Valid() && |freq| == fb.n && k < 8 && |buf| == |buf'| >= 2 * fb.n
    requires Holds(fb, freq, buf, k) && Blocks(fb.S(), k) + fb.S() <= at <= fb.n
    requires forall j :: 0 <= j < 2 * at ==> buf'[j] == buf[j]
    ensures Holds(fb, freq, buf', k)
  {
    hide fb.Valid;
    EightBlocks(fb, k);
  }

  ghost predicate HoldsFirst(fb: Bank, freq: seq<real>, buf: seq<real>, m: nat)
    requires fb.Valid() && |freq| == fb.n && m <= 8 && |buf| >= 2 * fb.n
  {
    forall k :: 0 <= k < m ==> Holds(fb, freq, buf, k)
  }

  method NextInverse(fb: Bank, freq: seq<real>, ghost k: nat, at: nat, buf: array<real>)
    requires fb.Valid() && |freq| == fb.n && k < 8 && at == Blocks(fb.S(), k) && buf.Length >= 2 * fb.n
    requires HoldsFirst(fb, freq, buf[..], k)
    modifies buf
    ensures HoldsFirst(fb, freq, buf[..], k + 1)
  {
    ghost var was := buf[..];
    InverseShort(fb, freq, k, at, buf);
    EightBlocks(fb, k);
    hide fb.Valid, Holds;
    forall h | 0 <= h < k ensures Holds(fb, freq, buf[..], h) {
      BlocksFit(fb.S(), h, k);
      HoldsBelow(fb, freq, was, buf[..], h, at);
    }
  }

  /** The eight transforms of EIGHT_SHORT_SEQUENCE. */
  method InverseAll(fb: Bank, freq: seq<real>, buf: array<real>)
    requires fb.Valid() && |freq| == fb.n && buf.Length >= 2 * fb.n
    modifies buf
    ensures HoldsFirst(fb, freq, buf[..], 8)
  {
    var s := fb.S();
    BlocksAre(s);
    assert HoldsFirst(fb, freq, buf[..], 0);
    hide fb.Valid, HoldsFirst, Blocks;
    NextInverse(fb, freq, 0, 0 * s, buf);
    NextInverse(fb, freq, 1, 1 * s, buf);
    NextInverse(fb, freq, 2, 2 * s, buf);
    NextInverse(fb, freq, 3, 3 * s, buf);
    NextInverse(fb, freq, 4, 4 * s, buf);
    NextInverse(fb, freq, 5, 5 * s, buf);
    NextInverse(fb, freq, 6, 6 * s, buf);
    NextInverse(fb, freq, 7, 7 * s, buf);
  }

  /** Sample r of short block k as it rises, and as it falls. */
  function Rising(fb: Bank, kind: Kind, buf: seq<real>, k: nat, r: nat): real
    requires fb.Valid() && kind.Valid() && |buf| >= 2 * fb.n && k < 8 && r < fb.S()
  {
    EightBlocks(fb, k);
    MulF(buf[2 * Blocks(fb.S(), k) + r], Slope(fb, kind, k)[r])
  }

  function Falling(fb: Bank, kind: Kind, buf: seq<real>, k: nat, r: nat): real
    requires fb.Valid() && kind.Valid() && |buf| >= 2 * fb.n && k < 8 && r < fb.S()
  {
    EightBlocks(fb, k);
    MulF(buf[2 * Blocks(fb.S(), k) + fb.S() + r], ShortWindow(fb, kind)[fb.S() - 1 - r])
  }

  lemma BlockHeld(fb: Bank, kind: Kind, freq: seq<real>, buf: seq<real>, k: nat, r: nat)
    requires fb.Valid() && kind.Valid() && |freq| == fb.n && k < 8 && |buf| >= 2 * fb.n && r < fb.S()
    requires Holds(fb, freq, buf, k)
    ensures BlockAt(fb, kind, freq, k, r) == Rising(fb, kind, buf, k, r)
    ensures BlockAt(fb, kind, freq, k, fb.S() + r) == Falling(fb, kind, buf, k, r)
  {
    hide *;
    RisingHeld(fb, kind, freq, buf, k, r);
    FallingHeld(fb, kind, freq, buf, k, r);
    InsideBlock(fb, kind, freq, k, r);
    InsideBlock(fb, kind, freq, k, fb.S() + r);
  }

  lemma HeldAt(fb: Bank, freq: seq<real>, buf: seq<real>, k: nat, j: nat)
    requires fb.Valid() && |freq| == fb.n && k < 8 && |buf| >= 2 * fb.n && j < 2 * fb.S()
    requires Holds(fb, freq, buf, k)
    ensures |fb.imdctShort(Coefficients(fb, freq, k))| == 2 * fb.S()
    ensures 2 * Blocks(fb.S(), k) + j < |buf|
    ensures buf[2 * Blocks(fb.S(), k) + j] == fb.imdctShort(Coefficients(fb, freq, k))[j]
  {
    EightBlocks(fb, k);
    hide Coefficients, Blocks;
    InSlice(buf, 2 * Blocks(fb.S(), k), 2 * fb.S(), j);
  }

  lemma RisingHeld(fb: Bank, kind: Kind, freq: seq<real>, buf: seq<real>, k: nat, r: nat)
    requires fb.Valid() && kind.Valid() && |freq| == fb.n && k < 8 && |buf| >= 2 * fb.n && r < fb.S()
    requires Holds(fb, freq, buf, k)
    ensures Block(fb, kind, freq, k)[r] == Rising(fb, kind, buf, k, r)
  {
    hide Coefficients, Blocks, Holds, Slope, ShortWindow, MulF, Windowed, fb.Valid;
    HeldAt(fb, freq, buf, k, r);
    UnderWindow(Slope(fb, kind, k), ShortWindow(fb, kind), fb.imdctShort(Coefficients(fb, freq, k)), r);
  }

  lemma FallingHeld(fb: Bank, kind: Kind, freq: seq<real>, buf: seq<real>, k: nat, r: nat)
    requires fb.Valid() && kind.Valid() && |freq| == fb.n && k < 8 && |buf| >= 2 * fb.n && r < fb.S()
    requires Holds(fb, freq, buf, k)
    ensures Block(fb, kind, freq, k)[fb.S() + r] == Falling(fb, kind, buf, k, r)
  {
    hide Coefficients, Blocks, Holds, Slope, ShortWindow, MulF, Windowed, fb.Valid;
    HeldAt(fb, freq, buf, k, fb.S() + r);
    UnderWindow(Slope(fb, kind, k), ShortWindow(fb, kind), fb.imdctShort(Coefficients(fb, freq, k)), r);
  }

  lemma InSlice<T>(s: seq<T>, lo: nat, n: nat, j: nat)
    requires lo + n <= |s| && j < n
    ensures s[lo..lo + n][j] == s[lo + j]
  {
  }

  /** What the frame holds r samples into its m-th stretch. */
  lemma Meeting(fb: Bank, kind: Kind, freq: seq<real>, buf: seq<real>, m: nat, r: nat)
    requires fb.Valid() && kind.Valid() && |freq| == fb.n && |buf| >= 2 * fb.n && kind.sequence.EightShort?
    requires HoldsFirst(fb, freq, buf, 8) && m <= 8 && r < fb.S()
    ensures Placed(fb, kind, freq, 8, Start(fb, m) + r)
         == (if m > 0 then Falling(fb, kind, buf, m - 1, r) else 0.0)
          + (if m < 8 then Rising(fb, kind, buf, m, r) else 0.0)
  {
    assert forall k :: 0 <= k < 8 ==> Holds(fb, freq, buf, k);
    hide *;
    TwoBlocksMeet(fb, kind, freq, m, r);
    if m > 0 {
      BlockHeld(fb, kind, freq, buf, m - 1, r);
    }
    if m < 8 {
      BlockHeld(fb, kind, freq, buf, m, r);
    }
  }

  /** The sizes of a frame of eight short blocks, and the windows it uses. */
  predicate Sized(fb: Bank, kind: Kind, s: nat, flat: nat, wp: seq<real>, w: seq<real>)
    requires fb.Valid() && kind.Valid()
  {
    && s == fb.S() && flat == fb.Flat() && 8 * s == fb.n == 2 * flat + s
    && wp == fb.short[kind.prev] && w == fb.short[kind.shape] && |wp| == |w| == s
  }

  /** The block at a falls and the block at b rises, r samples into a stretch. */
  function Pair(buf: seq<real>, w: seq<real>, a: nat, b: nat, r: nat): real
    requires r < |w| && a + |w| <= |buf| && b + |w| <= |buf|
  {
    MulF(buf[a + r], w[|w| - 1 - r]) + MulF(buf[b + r], w[r])
  }

  /** The middle stretches in the buffer's own indices. */
  lemma MiddleAt(fb: Bank, kind: Kind, freq: seq<real>, buf: seq<real>, m: nat, r: nat,
                 s: nat, flat: nat, at: nat, wp: seq<real>, w: seq<real>)
    requires fb.Valid() && kind.Valid() && |freq| == fb.n && |buf| >= 2 * fb.n && kind.sequence.EightShort?
    requires Sized(fb, kind, s, flat, wp, w) && HoldsFirst(fb, freq, buf, 8)
    requires 0 < m < 8 && r < s && at == Blocks(s, m) && s <= at <= 7 * s
    ensures Frame(fb, kind, freq)[flat + at + r] == Pair(buf, w, 2 * at - s, 2 * at, r)
  {
    hide MulF, HoldsFirst, Placed, Frame, Rising, Falling, Pair, fb.Valid;
    Meeting(fb, kind, freq, buf, m, r);
    ShortFrame(fb, kind, freq, flat + at + r);
    PairAt(fb, kind, buf, m, r, s, flat, at, wp, w);
  }

  lemma PairAt(fb: Bank, kind: Kind, buf: seq<real>, m: nat, r: nat,
               s: nat, flat: nat, at: nat, wp: seq<real>, w: seq<real>)
    requires fb.Valid() && kind.Valid() && |buf| >= 2 * fb.n && Sized(fb, kind, s, flat, wp, w)
    requires 0 < m < 8 && r < s && at == Blocks(s, m) && s <= at <= 7 * s
    ensures Falling(fb, kind, buf, m - 1, r) + Rising(fb, kind, buf, m, r) == Pair(buf, w, 2 * at - s, 2 * at, r)
  {
    hide MulF, fb.Valid;
    assert Blocks(s, m) == Blocks(s, m - 1) + s;
  }

  lemma FirstAt(fb: Bank, kind: Kind, freq: seq<real>, buf: seq<real>, r: nat, s: nat, flat: nat, wp: seq<real>, w: seq<real>)
    requires fb.Valid() && kind.Valid() && |freq| == fb.n && |buf| >= 2 * fb.n && kind.sequence.EightShort?
    requires Sized(fb, kind, s, flat, wp, w) && HoldsFirst(fb, freq, buf, 8) && r < s
    ensures Frame(fb, kind, freq)[flat + r] == MulF(buf[r], wp[r])
  {
    hide MulF, HoldsFirst, Placed, Frame, fb.Valid;
    Meeting(fb, kind, freq, buf, 0, r);
    ShortFrame(fb, kind, freq, flat + r);
  }

  lemma LastAt(fb: Bank, kind: Kind, freq: seq<real>, buf: seq<real>, r: nat, s: nat, flat: nat, wp: seq<real>, w: seq<real>)
    requires fb.Valid() && kind.Valid() && |freq| == fb.n && |buf| >= 2 * fb.n && kind.sequence.EightShort?
    requires Sized(fb, kind, s, flat, wp, w) && HoldsFirst(fb, freq, buf, 8) && r < s
    ensures Frame(fb, kind, freq)[flat + 8 * s + r] == MulF(buf[15 * s + r], w[s - 1 - r])
  {
    hide MulF, HoldsFirst, Placed, Frame, fb.Valid;
    BlocksAre(s);
    Meeting(fb, kind, freq, buf, 8, r);
    ShortFrame(fb, kind, freq, flat + 8 * s + r);
  }

  // A turn i of the loops writes samples base + i, base + s + i, ... base + 4s + i of
  // five stretches: base is flat for the first half, -s/2 for the second.

  /** out is the sum of a and z from lo up to hi. */
  ghost predicate Sum(a: seq<real>, z: seq<real>, out: seq<real>, lo: int, hi: int)
    requires |a| == |out| <= |z|
  {
    forall j :: 0 <= j < |out| && lo <= j < hi ==> out[j] == a[j] + z[j]
  }

  /** Only the samples i into the five stretches may differ. */
  predicate OnlyAt(a: seq<real>, b: seq<real>, i: int, s: int)
    requires |a| == |b|
  {
    forall j :: 0 <= j < |a| && a[j] != b[j] ==>
      j == i || j == i + s || j == i + 2 * s || j == i + 3 * s || j == i + 4 * s
  }

  /** Turn i has written the sum into its five samples. */
  ghost predicate Turn(a: seq<real>, z: seq<real>, was: seq<real>, out: seq<real>, base: int, s: int, i: int)
    requires |a| == |was| == |out| <= |z|
  {
    && OnlyAt(was, out, base + i, s)
    && Sum(a, z, out, base + i, base + i + 1)
    && Sum(a, z, out, base + s + i, base + s + i + 1)
    && Sum(a, z, out, base + 2 * s + i, base + 2 * s + i + 1)
    && Sum(a, z, out, base + 3 * s + i, base + 3 * s + i + 1)
    && Sum(a, z, out, base + 4 * s + i, base + 4 * s + i + 1)
  }

  /** After i turns: i samples of each of the five stretches are done, and all before them. */
  ghost predicate Turns(a: seq<real>, z: seq<real>, out: seq<real>, base: int, s: int, i: int)
    requires |a| == |out| <= |z|
  {
    && Sum(a, z, out, 0, base + i)
    && Sum(a, z, out, base + s, base + s + i)
    && Sum(a, z, out, base + 2 * s, base + 2 * s + i)
    && Sum(a, z, out, base + 3 * s, base + 3 * s + i)
    && Sum(a, z, out, base + 4 * s, base + 4 * s + i)
  }

  lemma NoTurns(a: seq<real>, z: seq<real>, out: seq<real>, base: int, s: int)
    requires |a| == |out| <= |z| && Sum(a, z, out, 0, base)
    ensures Turns(a, z, out, base, s, 0)
  {
  }

  lemma SumGrows(a: seq<real>, z: seq<real>, was: seq<real>, out: seq<real>, base: int, s: int, i: int, lo: int, hi: int)
    requires |a| == |was| == |out| <= |z| && 0 <= i < s && OnlyAt(was, out, base + i, s)
    requires (lo == 0 && hi == base + i) || (lo == base + s && hi == lo + i) || (lo == base + 2 * s && hi == lo + i)
          || (lo == base + 3 * s && hi == lo + i) || (lo == base + 4 * s && hi == lo + i)
    requires Sum(a, z, was, lo, hi) && Sum(a, z, out, hi, hi + 1)
    ensures Sum(a, z, out, lo, hi + 1)
  {
    assert Sum(a, z, out, lo, hi);
  }

  lemma NextTurn(a: seq<real>, z: seq<real>, was: seq<real>, out: seq<real>, base: int, s: int, i: int)
    requires |a| == |was| == |out| <= |z| && 0 <= i < s
    requires Turns(a, z, was, base, s, i) && Turn(a, z, was, out, base, s, i)
    ensures Turns(a, z, out, base, s, i + 1)
  {
    hide OnlyAt, Sum;
    SumGrows(a, z, was, out, base, s, i, 0, base + i);
    SumGrows(a, z, was, out, base, s, i, base + s, base + s + i);
    SumGrows(a, z, was, out, base, s, i, base + 2 * s, base + 2 * s + i);
    SumGrows(a, z, was, out, base, s, i, base + 3 * s, base + 3 * s + i);
    SumGrows(a, z, was, out, base, s, i, base + 4 * s, base + 4 * s + i);
  }

  lemma AllTurns(a: seq<real>, z: seq<real>, out: seq<real>, base: int, s: int)
    requires |a| == |out| <= |z| && Turns(a, z, out, base, s, s)
    ensures Sum(a, z, out, 0, base + 5 * s)
  {
  }

  /** What turn i of the loop over the first half writes. */
  predicate AddedAt(before: seq<real>, out: seq<real>, buf: seq<real>, i: nat, s: nat, trans: nat, flat: nat,
                    wp: seq<real>, w: seq<real>)
    requires i < s == |w| == |wp| && |before| == |out| == flat + 4 * s + trans && |buf| >= 16 * s && trans <= s
  {
    && out[flat + i] == before[flat + i] + MulF(buf[i], wp[i])
    && out[flat + s + i] == before[flat + s + i] + Pair(buf, w, s, 2 * s, i)
    && out[flat + 2 * s + i] == before[flat + 2 * s + i] + Pair(buf, w, 3 * s, 4 * s, i)
    && out[flat + 3 * s + i] == before[flat + 3 * s + i] + Pair(buf, w, 5 * s, 6 * s, i)
    && (i < trans ==> out[flat + 4 * s + i] == before[flat + 4 * s + i] + Pair(buf, w, 7 * s, 8 * s, i))
  }

  /** One turn of the loop over the first half. */
  method AddTurn(timeOut: array<real>, overlap: array<real>, buf: seq<real>, i: nat, s: nat, trans: nat,
                 flat: nat, wp: seq<real>, w: seq<real>)
    requires i < s == |w| == |wp| && timeOut.Length == overlap.Length == flat + 4 * s + trans
    requires |buf| >= 16 * s && timeOut != overlap && trans <= s
    modifies timeOut
    ensures OnlyAt(old(timeOut[..]), timeOut[..], flat + i, s)
    ensures AddedAt(overlap[..], timeOut[..], buf, i, s, trans, flat, wp, w)
  {
    hide MulF, Pair;
    var p := flat + i;
    timeOut[p] := overlap[p] + MulF(buf[s * 0 + i], wp[i]);
    timeOut[p + s] := overlap[p + s] + Pair(buf, w, s * 1, s * 2, i);
    timeOut[p + 2 * s] := overlap[p + 2 * s] + Pair(buf, w, s * 3, s * 4, i);
    timeOut[p + 3 * s] := overlap[p + 3 * s] + Pair(buf, w, s * 5, s * 6, i);
    if i < trans {
      timeOut[p + 4 * s] := overlap[p + 4 * s] + Pair(buf, w, s * 7, s * 8, i);
    }
  }

  lemma ShortSizes(fb: Bank, kind: Kind)
    requires fb.Valid() && kind.Valid()
    ensures var s, flat, wp, w := fb.S(), fb.Flat(), fb.short[kind.prev], fb.short[kind.shape];
            && Sized(fb, kind, s, flat, wp, w) && flat + 4 * s + s / 2 == fb.n && s / 2 <= s && |w| == |wp| == s
            && 8 * s == fb.n && s > 0
    ensures |fb.short| == 2 && kind.prev < 2 && kind.shape < 2
  {
    Sizes(fb);
  }

  lemma NoSum(a: seq<real>, z: seq<real>, out: seq<real>)
    requires |a| == |out| <= |z|
    ensures Sum(a, z, out, 0, 0)
  {
  }

  lemma SumNext(a: seq<real>, z: seq<real>, was: seq<real>, out: seq<real>, i: nat)
    requires i < |a| == |out| == |was| <= |z| && Sum(a, z, was, 0, i) && out == was[i := a[i]] && z[i] == 0.0
    ensures Sum(a, z, out, 0, i + 1)
  {
  }

  lemma FlatZero(fb: Bank, kind: Kind, freq: seq<real>, i: nat)
    requires fb.Valid() && kind.Valid() && |freq| == fb.n && kind.sequence.EightShort? && i < fb.Flat()
    ensures i < fb.n && Frame(fb, kind, freq)[i] == 0.0
  {
    Sizes(fb);
    hide fb.Valid, Frame, fb.S, fb.Flat;
    FirstBlockAhead(fb, kind, freq, i);
    ShortFrame(fb, kind, freq, i);
  }

  /** The first half of EIGHT_SHORT_SEQUENCE. */
  method AddShort(fb: Bank, kind: Kind, ghost freq: seq<real>, timeOut: array<real>, overlap: array<real>, buf: seq<real>)
    requires fb.Valid() && kind.Valid() && |freq| == fb.n && kind.sequence.EightShort?
    requires timeOut.Length == overlap.Length == fb.n && |buf| >= 2 * fb.n
    requires timeOut != overlap && HoldsFirst(fb, freq, buf, 8)
    modifies timeOut
    ensures Sum(overlap[..], Frame(fb, kind, freq), timeOut[..], 0, fb.n)
  {
    hide *;
    ShortSizes(fb, kind);
    var s, flat := fb.S(), fb.Flat();
    var trans := s / 2;
    var wp, w := fb.short[kind.prev], fb.short[kind.shape];
    ghost var before, z := overlap[..], Frame(fb, kind, freq);
    NoSum(before, z, timeOut[..]);
    for i := 0 to flat
      invariant Sum(before, z, timeOut[..], 0, i)
    {
      ghost var was := timeOut[..];
      timeOut[i] := overlap[i];
      FlatZero(fb, kind, freq, i);
      SumNext(before, z, was, timeOut[..], i);
    }
    NoTurns(before, z, timeOut[..], flat, s);
    for i := 0 to s
      invariant Turns(before, z, timeOut[..], flat, s, i)
    {
      ghost var was := timeOut[..];
      AddTurn(timeOut, overlap, buf, i, s, trans, flat, wp, w);
      AddedTurn(fb, kind, freq, before, was, timeOut[..], buf, i, s, trans, flat, wp, w);
      NextTurn(before, z, was, timeOut[..], flat, s, i);
    }
    AllTurns(before, z, timeOut[..], flat, s);
    Shorten(before, z, timeOut[..], flat + 5 * s, fb.n);
  }

  lemma Shorten(a: seq<real>, z: seq<real>, out: seq<real>, hi: int, hi': int)
    requires |a| == |out| <= |z| && Sum(a, z, out, 0, hi) && hi' <= hi
    ensures Sum(a, z, out, 0, hi')
  {
  }

  lemma AddedTurn(fb: Bank, kind: Kind, freq: seq<real>, before: seq<real>, was: seq<real>, out: seq<real>, buf: seq<real>,
                  i: nat, s: nat, trans: nat, flat: nat, wp: seq<real>, w: seq<real>)
    requires fb.Valid() && kind.Valid() && |freq| == |before| == |was| == |out| == fb.n && kind.sequence.EightShort?
    requires |buf| >= 2 * fb.n && HoldsFirst(fb, freq, buf, 8) && Sized(fb, kind, s, flat, wp, w) && i < s
    requires OnlyAt(was, out, flat + i, s) && flat + 4 * s + trans == fb.n && trans <= s
    requires AddedAt(before, out, buf, i, s, trans, flat, wp, w)
    ensures Turn(before, Frame(fb, kind, freq), was, out, flat, s, i)
  {
    BlocksAre(s);
    hide MulF, HoldsFirst, Frame, Blocks, Pair, OnlyAt, fb.Valid;
    FirstAt(fb, kind, freq, buf, i, s, flat, wp, w);
    MiddleAt(fb, kind, freq, buf, 1, i, s, flat, s, wp, w);
    MiddleAt(fb, kind, freq, buf, 2, i, s, flat, 2 * s, wp, w);
    MiddleAt(fb, kind, freq, buf, 3, i, s, flat, 3 * s, wp, w);
    MiddleAt(fb, kind, freq, buf, 4, i, s, flat, 4 * s, wp, w);
  }

  /** What turn i of the loop over the second half writes. */
  predicate SavedAt(out: seq<real>, buf: seq<real>, i: nat, s: nat, trans: nat, w: seq<real>)
    requires i < s == |w| && |out| == 8 * s && |buf| >= 16 * s && trans <= s
  {
    && (i >= trans ==> out[i - trans] == Pair(buf, w, 7 * s, 8 * s, i))
    && out[i - trans + s] == Pair(buf, w, 9 * s, 10 * s, i)
    && out[i - trans + 2 * s] == Pair(buf, w, 11 * s, 12 * s, i)
    && out[i - trans + 3 * s] == Pair(buf, w, 13 * s, 14 * s, i)
    && out[i - trans + 4 * s] == MulF(buf[15 * s + i], w[s - 1 - i])
  }

  /** One turn of the loop over the second half: `nflat_ls + 4 * nshort - nlong` is -trans. */
  method SaveTurn(overlap: array<real>, buf: seq<real>, i: nat, s: nat, trans: nat, w: seq<real>)
    requires i < s == |w| && overlap.Length == 8 * s && |buf| >= 16 * s && trans <= s
    modifies overlap
    ensures OnlyAt(old(overlap[..]), overlap[..], i - trans, s)
    ensures SavedAt(overlap[..], buf, i, s, trans, w)
  {
    hide MulF, Pair;
    if i >= trans {
      overlap[i - trans] := Pair(buf, w, s * 7, s * 8, i);
    }
    SaveFour(overlap, buf, i, s, i - trans, w);
  }

  method SaveFour(overlap: array<real>, buf: seq<real>, i: nat, s: nat, p: int, w: seq<real>)
    requires i < s == |w| && overlap.Length == 8 * s && |buf| >= 16 * s && 0 <= p + s < 2 * s
    modifies overlap
    ensures OnlyAt(old(overlap[..]), overlap[..], p, s) && (p >= 0 ==> overlap[p] == old(overlap[p]))
    ensures overlap[p + s] == Pair(buf, w, 9 * s, 10 * s, i)
    ensures overlap[p + 2 * s] == Pair(buf, w, 11 * s, 12 * s, i)
    ensures overlap[p + 3 * s] == Pair(buf, w, 13 * s, 14 * s, i)
    ensures overlap[p + 4 * s] == MulF(buf[15 * s + i], w[s - 1 - i])
  {
    hide MulF, Pair;
    overlap[p + s] := Pair(buf, w, s * 9, s * 10, i);
    overlap[p + 2 * s] := Pair(buf, w, s * 11, s * 12, i);
    overlap[p + 3 * s] := Pair(buf, w, s * 13, s * 14, i);
    overlap[p + 4 * s] := MulF(buf[s * 15 + i], w[s - 1 - i]);
  }

  lemma SavedTurn(fb: Bank, kind: Kind, freq: seq<real>, zeros: seq<real>, was: seq<real>, out: seq<real>, buf: seq<real>,
                  i: nat, s: nat, trans: nat, flat: nat, wp: seq<real>, w: seq<real>)
    requires fb.Valid() && kind.Valid() && |freq| == |zeros| == |was| == |out| == fb.n && kind.sequence.EightShort?
    requires |buf| >= 2 * fb.n && HoldsFirst(fb, freq, buf, 8) && Sized(fb, kind, s, flat, wp, w) && i < s
    requires flat + 4 * s + trans == fb.n && trans <= s
    requires OnlyAt(was, out, i - trans, s) && zeros == Zeros(fb.n)
    requires SavedAt(out, buf, i, s, trans, w)
    ensures Turn(zeros, Frame(fb, kind, freq)[fb.n..], was, out, 0 - trans, s, i)
  {
    BlocksAre(s);
    hide MulF, HoldsFirst, Frame, Blocks, Pair, OnlyAt, fb.Valid;
    MiddleAt(fb, kind, freq, buf, 4, i, s, flat, 4 * s, wp, w);
    MiddleAt(fb, kind, freq, buf, 5, i, s, flat, 5 * s, wp, w);
    MiddleAt(fb, kind, freq, buf, 6, i, s, flat, 6 * s, wp, w);
    MiddleAt(fb, kind, freq, buf, 7, i, s, flat, 7 * s, wp, w);
    LastAt(fb, kind, freq, buf, i, s, flat, wp, w);
  }

  function Zeros(n: nat): (z: seq<real>)
    ensures |z| == n
  {
    seq(n, i => 0.0)
  }

  /** The second half of EIGHT_SHORT_SEQUENCE. */
  method SaveShort(fb: Bank, kind: Kind, ghost freq: seq<real>, overlap: array<real>, buf: seq<real>)
    requires fb.Valid() && kind.Valid() && |freq| == fb.n && kind.sequence.EightShort?
    requires overlap.Length == fb.n && |buf| >= 2 * fb.n && HoldsFirst(fb, freq, buf, 8)
    modifies overlap
    ensures Sum(Zeros(fb.n), Frame(fb, kind, freq)[fb.n..], overlap[..], 0, fb.n)
  {
    var s, flat := fb.S(), fb.Flat();
    Sizes(fb);
    hide *;
    SaveStretches(fb, kind, freq, overlap, buf, s, flat);
    for i := 0 to flat
      invariant Sum(Zeros(fb.n), Frame(fb, kind, freq)[fb.n..], overlap[..], 0, flat + s + i)
    {
      ghost var was := overlap[..];
      overlap[flat + s + i] := 0.0;
      PastTheLast(fb, kind, freq, flat + s + i);
      OneMore(Zeros(fb.n), Frame(fb, kind, freq)[fb.n..], was, overlap[..], flat + s + i);
    }
  }

  method SaveStretches(fb: Bank, kind: Kind, ghost freq: seq<real>, overlap: array<real>, buf: seq<real>, s: nat, flat: nat)
    requires fb.Valid() && kind.Valid() && |freq| == fb.n && kind.sequence.EightShort?
    requires overlap.Length == fb.n && |buf| >= 2 * fb.n && HoldsFirst(fb, freq, buf, 8)
    requires s == fb.S() && flat == fb.Flat()
    modifies overlap
    ensures Sum(Zeros(fb.n), Frame(fb, kind, freq)[fb.n..], overlap[..], 0, flat + s)
  {
    Sizes(fb);
    ghost var z := Frame(fb, kind, freq)[fb.n..];
    ghost var zeros := Zeros(fb.n);
    assert Sized(fb, kind, s, flat, fb.short[kind.prev], fb.short[kind.shape]);
    SaveTurns(fb, kind, freq, overlap, buf, s, s / 2, flat, fb.short[kind.prev], fb.short[kind.shape]);
    hide *;
    AllTurns(zeros, z, overlap[..], 0 - s / 2, s);
    Shorten(zeros, z, overlap[..], 0 - s / 2 + 5 * s, flat + s);
  }

  method SaveTurns(fb: Bank, kind: Kind, ghost freq: seq<real>, overlap: array<real>, buf: seq<real>,
                   s: nat, trans: int, ghost flat: nat, ghost wp: seq<real>, w: seq<real>)
    requires fb.Valid() && kind.Valid() && |freq| == fb.n && kind.sequence.EightShort?
    requires overlap.Length == fb.n && |buf| >= 2 * fb.n && HoldsFirst(fb, freq, buf, 8)
    requires Sized(fb, kind, s, flat, wp, w) && 0 <= trans <= s && flat + 4 * s + trans == fb.n
    modifies overlap
    ensures Turns(Zeros(fb.n), Frame(fb, kind, freq)[fb.n..], overlap[..], 0 - trans, s, s)
  {
    ghost var z := Frame(fb, kind, freq)[fb.n..];
    assert |w| == s && 8 * s == fb.n;
    hide *;
    NoneSaved(Zeros(fb.n), z, overlap[..], 0 - trans, s);
    for i := 0 to s
      invariant Turns(Zeros(fb.n), z, overlap[..], 0 - trans, s, i)
    {
      ghost var was := overlap[..];
      SaveTurn(overlap, buf, i, s, trans, w);
      SavedStep(fb, kind, freq, was, overlap[..], buf, i, s, trans, flat, wp, w);
    }
  }

  lemma NoneSaved(a: seq<real>, z: seq<real>, out: seq<real>, base: int, s: int)
    requires |a| == |out| <= |z| && base <= 0
    ensures Turns(a, z, out, base, s, 0)
  {
    Empty(a, z, out, base);
    NoTurns(a, z, out, base, s);
  }

  lemma SavedStep(fb: Bank, kind: Kind, freq: seq<real>, was: seq<real>, out: seq<real>, buf: seq<real>,
                  i: nat, s: nat, trans: nat, flat: nat, wp: seq<real>, w: seq<real>)
    requires fb.Valid() && kind.Valid() && |freq| == |was| == |out| == fb.n && kind.sequence.EightShort?
    requires |buf| >= 2 * fb.n && HoldsFirst(fb, freq, buf, 8) && Sized(fb, kind, s, flat, wp, w) && i < s
    requires flat + 4 * s + trans == fb.n && trans <= s
    requires OnlyAt(was, out, i - trans, s) && SavedAt(out, buf, i, s, trans, w)
    requires Turns(Zeros(fb.n), Frame(fb, kind, freq)[fb.n..], was, 0 - trans, s, i)
    ensures Turns(Zeros(fb.n), Frame(fb, kind, freq)[fb.n..], out, 0 - trans, s, i + 1)
  {
    hide *;
    SavedTurn(fb, kind, freq, Zeros(fb.n), was, out, buf, i, s, trans, flat, wp, w);
    NextTurn(Zeros(fb.n), Frame(fb, kind, freq)[fb.n..], was, out, 0 - trans, s, i);
  }

  lemma Empty(a: seq<real>, z: seq<real>, out: seq<real>, hi: int)
    requires |a| == |out| <= |z| && hi <= 0
    ensures Sum(a, z, out, 0, hi)
  {
  }

  lemma OneMore(a: seq<real>, z: seq<real>, was: seq<real>, out: seq<real>, k: nat)
    requires |a| == |was| == |out| == |z| && k < |a| && out == was[k := 0.0]
    requires Sum(a, z, was, 0, k) && z[k] == 0.0 && a == Zeros(|a|)
    ensures Sum(a, z, out, 0, k + 1)
  {
  }

  lemma PastTheLast(fb: Bank, kind: Kind, freq: seq<real>, i: nat)
    requires fb.Valid() && kind.Valid() && |freq| == fb.n && kind.sequence.EightShort?
    requires fb.Flat() + fb.S() <= i < fb.n
    ensures Frame(fb, kind, freq)[fb.n + i] == 0.0
  {
    hide Placed, Frame, Start, fb.Valid;
    Starts(fb, 7, 8);
    ShortFrame(fb, kind, freq, fb.n + i);
    PlacedBehind(fb, kind, freq, 8, fb.n + i);
  }

  // ----- the whole of ifilter_bank

  /** `faad_imdct` of the long transform. */
  method InverseLong(fb: Bank, freq: seq<real>, buf: array<real>)
    requires fb.Valid() && |freq| == fb.n && buf.Length >= 2 * fb.n
    modifies buf
    ensures buf[..2 * fb.n] == fb.imdct(freq)
  {
    var t := fb.imdct(freq);
    assert |t| == 2 * fb.n;
    hide fb.Valid;
    for j := 0 to |t|
      invariant buf[..j] == t[..j]
    {
      buf[j] := t[j];
    }
    assert t[..|t|] == t;
  }

  /** The long frame's samples, half by half. */
  lemma LongFrame(fb: Bank, kind: Kind, freq: seq<real>, buf: seq<real>, i: nat)
    requires fb.Valid() && kind.Valid() && |freq| == fb.n && !kind.sequence.EightShort? && i < fb.n
    requires |buf| >= 2 * fb.n && buf[..2 * fb.n] == fb.imdct(freq)
    ensures Frame(fb, kind, freq)[i] == MulF(buf[i], Left(fb, kind)[i])
    ensures Frame(fb, kind, freq)[fb.n + i] == MulF(buf[fb.n + i], Right(fb, kind)[fb.n - 1 - i])
  {
    hide Left, Right, Windowed, MulF;
    UnderWindow(Left(fb, kind), Right(fb, kind), fb.imdct(freq), i);
  }

  method OnlyLongSequence(fb: Bank, kind: Kind, freq: seq<real>, timeOut: array<real>, overlap: array<real>, buf: array<real>)
    requires fb.Valid() && kind.Valid() && |freq| == timeOut.Length == overlap.Length == fb.n && kind.sequence.OnlyLong?
    requires timeOut != overlap && timeOut != buf && overlap != buf && buf.Length >= 2 * fb.n
    modifies timeOut, overlap, buf
    ensures OverlapAdded(fb.n, Frame(fb, kind, freq), old(overlap[..]), timeOut[..], overlap[..])
  {
    ghost var before := overlap[..];
    Sizes(fb);
    InverseLong(fb, freq, buf);
    hide MulF, Frame, fb.Valid, fb.S, fb.Flat;
    AddLong(timeOut, overlap, buf, fb.long[kind.prev]);
    SaveLong(overlap, buf, fb.long[kind.shape]);
    LongDone(fb, kind, freq, before, timeOut[..], overlap[..], buf[..]);
  }

  method LongStartSequence(fb: Bank, kind: Kind, freq: seq<real>, timeOut: array<real>, overlap: array<real>, buf: array<real>)
    requires fb.Valid() && kind.Valid() && |freq| == timeOut.Length == overlap.Length == fb.n && kind.sequence.LongStart?
    requires timeOut != overlap && timeOut != buf && overlap != buf && buf.Length >= 2 * fb.n
    modifies timeOut, overlap, buf
    ensures OverlapAdded(fb.n, Frame(fb, kind, freq), old(overlap[..]), timeOut[..], overlap[..])
  {
    ghost var before := overlap[..];
    Sizes(fb);
    InverseLong(fb, freq, buf);
    hide MulF, Frame, ShortEdge, fb.Valid;
    AddLong(timeOut, overlap, buf, fb.long[kind.prev]);
    SaveStart(fb, overlap, buf, fb.short[kind.shape]);
    LongDone(fb, kind, freq, before, timeOut[..], overlap[..], buf[..]);
  }

  method EightShortSequence(fb: Bank, kind: Kind, freq: seq<real>, timeOut: array<real>, overlap: array<real>, buf: array<real>)
    requires fb.Valid() && kind.Valid() && |freq| == timeOut.Length == overlap.Length == fb.n && kind.sequence.EightShort?
    requires timeOut != overlap && timeOut != buf && overlap != buf && buf.Length >= 2 * fb.n
    modifies timeOut, overlap, buf
    ensures OverlapAdded(fb.n, Frame(fb, kind, freq), old(overlap[..]), timeOut[..], overlap[..])
  {
    ghost var before := overlap[..];
    InverseAll(fb, freq, buf);
    hide *;
    AddShort(fb, kind, freq, timeOut, overlap, buf[..]);
    SaveShort(fb, kind, freq, overlap, buf[..]);
    ShortDone(fb, kind, freq, before, timeOut[..], overlap[..]);
  }

  method LongStopSequence(fb: Bank, kind: Kind, freq: seq<real>, timeOut: array<real>, overlap: array<real>, buf: array<real>)
    requires fb.Valid() && kind.Valid() && |freq| == timeOut.Length == overlap.Length == fb.n && kind.sequence.LongStop?
    requires timeOut != overlap && timeOut != buf && overlap != buf && buf.Length >= 2 * fb.n
    modifies timeOut, overlap, buf
    ensures OverlapAdded(fb.n, Frame(fb, kind, freq), old(overlap[..]), timeOut[..], overlap[..])
  {
    ghost var before := overlap[..];
    InverseLong(fb, freq, buf);
    hide MulF, Frame, ShortEdge, fb.Valid;
    AddStop(fb, timeOut, overlap, buf, fb.short[kind.prev]);
    SaveStop(overlap, buf, fb.long[kind.shape]);
    LongDone(fb, kind, freq, before, timeOut[..], overlap[..], buf[..]);
  }

  /** A first half under a stretch of zeros, a short slope w and a stretch of ones, added to `before`. */
  predicate RisesShort(fb: Bank, w: seq<real>, y: seq<real>, before: seq<real>, out: seq<real>)
    requires |y| == 2 * fb.n && |before| == |out| == fb.n && |w| == fb.S()
  {
    var s, flat := fb.n / 8, 7 * (fb.n / 16);
    forall i :: 0 <= i < fb.n ==>
      out[i] == if i < flat then before[i] else if i < flat + s && i - flat < |w| then before[i] + MulF(y[i], w[i - flat])
                else before[i] + y[i]
  }

  /** A second half under ones, a short slope w backwards and zeros. */
  predicate FallsShort(fb: Bank, w: seq<real>, y: seq<real>, after: seq<real>)
    requires |y| == 2 * fb.n && |after| == fb.n && |w| == fb.S()
  {
    var s, flat := fb.n / 8, 7 * (fb.n / 16);
    forall i :: 0 <= i < fb.n ==>
      after[i] == if i < flat then y[fb.n + i] else if i < flat + s && i - flat < |w| then MulF(y[fb.n + i], w[|w| - 1 - (i - flat)])
                  else 0.0
  }

  /** Eight blocks, each half a block behind the one before, the first under the previous frame's rising slope. */
  ghost predicate EightMeet(fb: Bank, wp: seq<real>, w: seq<real>, freq: seq<real>, z: seq<real>)
    requires |wp| == |w| == fb.n / 8 && |freq| == fb.n && |z| == 2 * fb.n
  {
    var s, flat := fb.n / 8, 7 * (fb.n / 16);
    && (forall p :: 0 <= p < flat || 2 * fb.n - flat <= p < 2 * fb.n ==> z[p] == 0.0)
    && (forall k: nat, r: nat :: k <= 8 && r < s ==> MeetAt(fb, wp, w, freq, z, k, r))
  }

  /** r samples into stretch k, block k - 1 falls and block k rises. */
  ghost predicate MeetAt(fb: Bank, wp: seq<real>, w: seq<real>, freq: seq<real>, z: seq<real>, k: nat, r: nat)
    requires |wp| == |w| == fb.n / 8 && |freq| == fb.n && r < fb.n / 8
  {
    var s, p := fb.n / 8, 7 * (fb.n / 16) + k * (fb.n / 8) + r;
    && p < |z|
    && (k > 0 ==> k * s <= fb.n && |fb.imdctShort(freq[(k - 1) * s..k * s])| == 2 * s)
    && (k < 8 ==> (k + 1) * s <= fb.n && |fb.imdctShort(freq[k * s..(k + 1) * s])| == 2 * s)
    && z[p] == (if k > 0 then MulF(fb.imdctShort(freq[(k - 1) * s..k * s])[s + r], w[s - 1 - r]) else 0.0)
             + (if k < 8 then MulF(fb.imdctShort(freq[k * s..(k + 1) * s])[r], if k == 0 then wp[r] else w[r]) else 0.0)
  }

  /**
    * `ifilter_bank`: every window sequence is one overlap-add, with a long or short window
    * of the previous frame's shape on the first half and of this frame's on the second.
    */
  method IFilterBank(fb: Bank, kind: Kind, freqIn: seq<real>, timeOut: array<real>, overlap: array<real>)
    requires fb.Valid() && kind.Valid() && |freqIn| == timeOut.Length == overlap.Length == fb.n
    requires timeOut != overlap
    modifies timeOut, overlap
    ensures OverlapAdded(fb.n, Frame(fb, kind, freqIn), old(overlap[..]), timeOut[..], overlap[..])
    ensures kind.sequence.OnlyLong? || kind.sequence.LongStart? ==>
              forall i :: 0 <= i < fb.n ==> timeOut[i] == old(overlap[i]) + MulF(fb.imdct(freqIn)[i], fb.long[kind.prev][i])
    ensures kind.sequence.OnlyLong? || kind.sequence.LongStop? ==>
              forall i :: 0 <= i < fb.n ==> overlap[i] == MulF(fb.imdct(freqIn)[fb.n + i], fb.long[kind.shape][fb.n - 1 - i])
    ensures kind.sequence.LongStop? ==>
              RisesShort(fb, fb.short[kind.prev], fb.imdct(freqIn), old(overlap[..]), timeOut[..])
    ensures kind.sequence.LongStart? ==> FallsShort(fb, fb.short[kind.shape], fb.imdct(freqIn), overlap[..])
    ensures kind.sequence.EightShort? ==>
              && EightMeet(fb, fb.short[kind.prev], fb.short[kind.shape], freqIn, Frame(fb, kind, freqIn))
              && OverlapAdded(fb.n, Frame(fb, kind, freqIn), old(overlap[..]), timeOut[..], overlap[..])
  {
    hide *;
    ghost var before := overlap[..];
    var transfBuf := new real[2 * 1024](_ => 0.0);
    BufferHolds(fb);
    match kind.sequence {
      case OnlyLong => OnlyLongSequence(fb, kind, freqIn, timeOut, overlap, transfBuf);
      case LongStart => LongStartSequence(fb, kind, freqIn, timeOut, overlap, transfBuf);
      case EightShort => EightShortSequence(fb, kind, freqIn, timeOut, overlap, transfBuf);
      case LongStop => LongStopSequence(fb, kind, freqIn, timeOut, overlap, transfBuf);
    }
    if kind.sequence.EightShort? {
      EightAre(fb, kind, freqIn);
    } else {
      LongSamples(fb, kind, freqIn, before, timeOut[..], overlap[..]);
    }
  }

  lemma BufferHolds(fb: Bank)
    requires fb.Valid()
    ensures 2 * fb.n <= 2 * 1024
  {
  }

  /** The windows of the three long sequences, sample by sample. */
  lemma LongSamples(fb: Bank, kind: Kind, freq: seq<real>, before: seq<real>, out: seq<real>, after: seq<real>)
    requires fb.Valid() && kind.Valid() && |freq| == |before| == |out| == |after| == fb.n && !kind.sequence.EightShort?
    requires OverlapAdded(fb.n, Frame(fb, kind, freq), before, out, after)
    ensures |fb.imdct(freq)| == 2 * fb.n && |fb.long[kind.prev]| == |fb.long[kind.shape]| == fb.n
    ensures |fb.short[kind.prev]| == |fb.short[kind.shape]| == fb.S()
    ensures kind.sequence.OnlyLong? || kind.sequence.LongStart? ==>
              forall i :: 0 <= i < fb.n ==> out[i] == before[i] + MulF(fb.imdct(freq)[i], fb.long[kind.prev][i])
    ensures kind.sequence.OnlyLong? || kind.sequence.LongStop? ==>
              forall i :: 0 <= i < fb.n ==> after[i] == MulF(fb.imdct(freq)[fb.n + i], fb.long[kind.shape][fb.n - 1 - i])
    ensures kind.sequence.LongStop? ==> RisesShort(fb, fb.short[kind.prev], fb.imdct(freq), before, out)
    ensures kind.sequence.LongStart? ==> FallsShort(fb, fb.short[kind.shape], fb.imdct(freq), after)
  {
    var y := fb.imdct(freq);
    FlatIs(fb);
    forall i | 0 <= i < fb.n
      ensures out[i] == before[i] + MulF(y[i], Left(fb, kind)[i])
      ensures after[i] == MulF(y[fb.n + i], Right(fb, kind)[fb.n - 1 - i])
    {
      hide Left, Right, Frame, MulF, fb.Valid;
      LongFrame(fb, kind, freq, y, i);
    }
    hide Frame, MulF, OverlapAdded;
    if kind.sequence.LongStop? {
      StopRises(fb, kind, y, before, out);
    }
    if kind.sequence.LongStart? {
      StartFalls(fb, kind, y, after);
    }
  }

  lemma FlatIs(fb: Bank)
    requires fb.Valid()
    ensures fb.S() == fb.n / 8 && fb.Flat() == 7 * (fb.n / 16) && 2 * fb.Flat() + fb.S() == fb.n
  {
    EvenForSixteens(fb);
  }

  lemma StopRises(fb: Bank, kind: Kind, y: seq<real>, before: seq<real>, out: seq<real>)
    requires fb.Valid() && kind.Valid() && kind.sequence.LongStop? && |y| == 2 * fb.n && |before| == |out| == fb.n
    requires forall i :: 0 <= i < fb.n ==> out[i] == before[i] + MulF(y[i], Left(fb, kind)[i])
    ensures |fb.short[kind.prev]| == fb.S() && RisesShort(fb, fb.short[kind.prev], y, before, out)
  {
    FlatIs(fb);
    var w := fb.short[kind.prev];
    assert Left(fb, kind) == ShortEdge(fb, w);
    hide MulF, fb.S, fb.Flat, Left, ShortEdge;
    forall i | 0 <= i < fb.n
      ensures out[i] == if i < fb.Flat() then before[i] else if i < fb.Flat() + fb.S() then before[i] + MulF(y[i], w[i - fb.Flat()])
                        else before[i] + y[i]
    {
      EdgeAt(fb, w, i);
      MulZero(y[i]);
      MulOne(y[i]);
    }
  }

  lemma StartFalls(fb: Bank, kind: Kind, y: seq<real>, after: seq<real>)
    requires fb.Valid() && kind.Valid() && kind.sequence.LongStart? && |y| == 2 * fb.n && |after| == fb.n
    requires forall i :: 0 <= i < fb.n ==> after[i] == MulF(y[fb.n + i], Right(fb, kind)[fb.n - 1 - i])
    ensures |fb.short[kind.shape]| == fb.S() && FallsShort(fb, fb.short[kind.shape], y, after)
  {
    FlatIs(fb);
    var w := fb.short[kind.shape];
    assert Right(fb, kind) == ShortEdge(fb, w);
    hide MulF, fb.S, fb.Flat, Right, ShortEdge;
    forall i | 0 <= i < fb.n
      ensures after[i] == if i < fb.Flat() then y[fb.n + i]
                          else if i < fb.Flat() + fb.S() then MulF(y[fb.n + i], w[|w| - 1 - (i - fb.Flat())]) else 0.0
    {
      EdgeAt(fb, w, fb.n - 1 - i);
      MulZero(y[fb.n + i]);
      MulOne(y[fb.n + i]);
    }
  }

  /** The windows of eight short blocks, sample by sample. */
  lemma EightAre(fb: Bank, kind: Kind, freq: seq<real>)
    requires fb.Valid() && kind.Valid() && kind.sequence.EightShort? && |freq| == fb.n
    ensures |fb.short[kind.prev]| == |fb.short[kind.shape]| == fb.n / 8
    ensures EightMeet(fb, fb.short[kind.prev], fb.short[kind.shape], freq, Frame(fb, kind, freq))
  {
    FlatIs(fb);
    var z, wp, w := Frame(fb, kind, freq), fb.short[kind.prev], fb.short[kind.shape];
    hide MulF, fb.S, fb.Flat, Frame, MeetAt;
    forall p: nat | p < fb.Flat() || 2 * fb.n - fb.Flat() <= p < 2 * fb.n ensures z[p] == 0.0 {
      hide fb.Valid;
      ShortFrame(fb, kind, freq, p);
      if p < fb.Flat() {
        FirstBlockAhead(fb, kind, freq, p);
      } else {
        BlocksTimes(fb.S(), 8);
        PlacedBehind(fb, kind, freq, 8, p);
      }
    }
    forall k: nat, r: nat | k <= 8 && r < fb.n / 8 ensures MeetAt(fb, wp, w, freq, z, k, r) {
      EightAt(fb, kind, freq, k, r);
    }
  }

  lemma {:induction false} BlocksTimes(s: nat, k: nat)
    ensures Blocks(s, k) == k * s
  {
    if k > 0 {
      BlocksTimes(s, k - 1);
      assert k * s == (k - 1) * s + s;
    }
  }

  lemma EightAt(fb: Bank, kind: Kind, freq: seq<real>, k: nat, r: nat)
    requires fb.Valid() && kind.Valid() && kind.sequence.EightShort? && |freq| == fb.n && k <= 8 && r < fb.n / 8
    ensures |fb.short[kind.prev]| == |fb.short[kind.shape]| == fb.n / 8
    ensures MeetAt(fb, fb.short[kind.prev], fb.short[kind.shape], freq, Frame(fb, kind, freq), k, r)
  {
    hide *;
    FlatIs(fb);
    Sizes(fb);
    var s, flat := fb.S(), fb.Flat();
    BlocksTimes(s, k);
    TwoBlocksMeet(fb, kind, freq, k, r);
    StretchFits(s, k, r);
    StartIs(fb, k);
    ShortFrame(fb, kind, freq, Start(fb, k) + r);
    var a := if k > 0 then BlockAt(fb, kind, freq, k - 1, s + r) else 0.0;
    var b := if k < 8 then BlockAt(fb, kind, freq, k, r) else 0.0;
    if k > 0 {
      FallingAt(fb, kind, freq, k - 1, r);
    }
    if k < 8 {
      RisingAt(fb, kind, freq, k, r);
    }
    ShortsAre(fb, kind);
    MeetsAt(fb, fb.short[kind.prev], fb.short[kind.shape], freq, Frame(fb, kind, freq), k, r, s, flat, a, b);
  }

  lemma StartIs(fb: Bank, k: nat)
    requires fb.Valid()
    ensures Start(fb, k) == fb.Flat() + Blocks(fb.S(), k)
  {
  }

  lemma ShortsAre(fb: Bank, kind: Kind)
    requires fb.Valid() && kind.Valid()
    ensures kind.prev < |fb.short| && kind.shape < |fb.short| && |fb.short[kind.prev]| == |fb.short[kind.shape]| == fb.S()
  {
  }

  lemma MeetsAt(fb: Bank, wp: seq<real>, w: seq<real>, freq: seq<real>, z: seq<real>, k: nat, r: nat,
                s: nat, flat: nat, a: real, b: real)
    requires s == fb.n / 8 && flat == 7 * (fb.n / 16) && |wp| == |w| == s && |freq| == fb.n && r < s && k <= 8
    requires flat + k * s + r < |z| && z[flat + k * s + r] == a + b
    requires if k == 0 then a == 0.0 else
               && (k - 1) * s <= (k - 1 + 1) * s <= fb.n && |fb.imdctShort(freq[(k - 1) * s..(k - 1 + 1) * s])| == 2 * s
               && a == MulF(fb.imdctShort(freq[(k - 1) * s..(k - 1 + 1) * s])[s + r], w[s - 1 - r])
    requires if k == 8 then b == 0.0 else
               && k * s <= (k + 1) * s <= fb.n && |fb.imdctShort(freq[k * s..(k + 1) * s])| == 2 * s
               && b == MulF(fb.imdctShort(freq[k * s..(k + 1) * s])[r], if k == 0 then wp[r] else w[r])
    ensures MeetAt(fb, wp, w, freq, z, k, r)
  {
    hide MulF;
  }

  lemma StretchFits(s: nat, k: nat, r: nat)
    requires k <= 8 && r < s
    ensures k * s + r < 9 * s
  {
    Arith.MulNonneg(8 - k, s);
    assert 8 * s == k * s + (8 - k) * s;
  }

  lemma CoefficientsAre(fb: Bank, freq: seq<real>, k: nat)
    requires fb.Valid() && |freq| == fb.n && k < 8
    ensures k * fb.S() <= (k + 1) * fb.S() <= fb.n && Coefficients(fb, freq, k) == freq[k * fb.S()..(k + 1) * fb.S()]
    ensures |fb.imdctShort(Coefficients(fb, freq, k))| == 2 * fb.S()
  {
    EightBlocks(fb, k);
    BlocksTimes(fb.S(), k);
    assert (k + 1) * fb.S() == k * fb.S() + fb.S();
    hide fb.S, Blocks;
  }

  lemma RisingAt(fb: Bank, kind: Kind, freq: seq<real>, k: nat, r: nat)
    requires fb.Valid() && kind.Valid() && |freq| == fb.n && k < 8 && r < fb.S()
    ensures k * fb.S() <= (k + 1) * fb.S() <= fb.n && |fb.imdctShort(freq[k * fb.S()..(k + 1) * fb.S()])| == 2 * fb.S()
    ensures |fb.short[kind.prev]| == |fb.short[kind.shape]| == fb.S()
    ensures BlockAt(fb, kind, freq, k, r)
         == MulF(fb.imdctShort(freq[k * fb.S()..(k + 1) * fb.S()])[r], if k == 0 then fb.short[kind.prev][r] else fb.short[kind.shape][r])
  {
    CoefficientsAre(fb, freq, k);
    hide MulF, fb.S, Coefficients;
  }

  lemma FallingAt(fb: Bank, kind: Kind, freq: seq<real>, k: nat, r: nat)
    requires fb.Valid() && kind.Valid() && |freq| == fb.n && k < 8 && r < fb.S()
    ensures k * fb.S() <= (k + 1) * fb.S() <= fb.n && |fb.imdctShort(freq[k * fb.S()..(k + 1) * fb.S()])| == 2 * fb.S()
    ensures |fb.short[kind.shape]| == fb.S()
    ensures BlockAt(fb, kind, freq, k, fb.S() + r)
         == MulF(fb.imdctShort(freq[k * fb.S()..(k + 1) * fb.S()])[fb.S() + r], fb.short[kind.shape][fb.S() - 1 - r])
  {
    CoefficientsAre(fb, freq, k);
    hide MulF, fb.S, Coefficients;
  }

  lemma LongDone(fb: Bank, kind: Kind, freq: seq<real>, before: seq<real>, out: seq<real>, after: seq<real>, buf: seq<real>)
    requires fb.Valid() && kind.Valid() && |freq| == |before| == |out| == |after| == fb.n && !kind.sequence.EightShort?
    requires |buf| >= 2 * fb.n && buf[..2 * fb.n] == fb.imdct(freq)
    requires forall i :: 0 <= i < fb.n ==> out[i] == before[i] + MulF(buf[i], Left(fb, kind)[i])
    requires forall i :: 0 <= i < fb.n ==> after[i] == MulF(buf[fb.n + i], Right(fb, kind)[fb.n - 1 - i])
    ensures OverlapAdded(fb.n, Frame(fb, kind, freq), before, out, after)
  {
    hide Left, Right, Frame, MulF, fb.Valid;
    forall i | 0 <= i < fb.n
      ensures out[i] == before[i] + Frame(fb, kind, freq)[i] && after[i] == Frame(fb, kind, freq)[fb.n + i]
    {
      LongFrame(fb, kind, freq, buf, i);
    }
  }

  lemma ShortDone(fb: Bank, kind: Kind, freq: seq<real>, before: seq<real>, out: seq<real>, after: seq<real>)
    requires fb.Valid() && kind.Valid() && |freq| == |before| == |out| == |after| == fb.n
    requires Sum(before, Frame(fb, kind, freq), out, 0, fb.n)
    requires Sum(Zeros(fb.n), Frame(fb, kind, freq)[fb.n..], after, 0, fb.n)
    ensures OverlapAdded(fb.n, Frame(fb, kind, freq), before, out, after)
  {
    hide Frame, fb.Valid;
  }

  // ----- filter_bank_ltp

  /** The first half of buf is the samples under a rising slope, up to hi. */
  predicate Rises(x: seq<real>, buf: seq<real>, l: seq<real>, hi: int)
    requires |x| == 2 * |l| <= |buf|
  {
    forall i :: 0 <= i < |l| && i < hi ==> buf[i] == MulF(x[i], l[i])
  }

  /** The second half is the samples under r backwards, up to hi. */
  predicate Falls(x: seq<real>, buf: seq<real>, r: seq<real>, hi: int)
    requires |x| == 2 * |r| <= |buf|
  {
    forall i :: |r| <= i < 2 * |r| && i < |r| + hi ==> buf[i] == MulF(x[i], r[2 * |r| - 1 - i])
  }

  lemma FallsNext(x: seq<real>, was: seq<real>, r: seq<real>, k: nat, v: real)
    requires |x| == 2 * |r| <= |was| && k < |r| && Falls(x, was, r, k)
    requires v == MulF(x[|r| + k], r[|r| - 1 - k])
    ensures Falls(x, was[|r| + k := v], r, k + 1)
  {
    hide MulF;
  }

  /** ONLY_LONG_SEQUENCE, both halves from the top down. */
  method WindowLong(x: seq<real>, buf: array<real>, l: seq<real>, r: seq<real>)
    requires |l| == |r| && |x| == 2 * |l| <= buf.Length
    modifies buf
    ensures Rises(x, buf[..], l, |l|) && Falls(x, buf[..], r, |r|)
  {
    hide MulF;
    var n := |l|;
    var i := n - 1;
    while i >= 0
      invariant -1 <= i < n
      invariant forall j :: i < j < n ==> buf[j] == MulF(x[j], l[j])
      invariant forall j :: n + i < j < 2 * n ==> buf[j] == MulF(x[j], r[2 * n - 1 - j])
    {
      buf[i] := MulF(x[i], l[i]);
      buf[i + n] := MulF(x[i + n], r[n - 1 - i]);
      i := i - 1;
    }
  }

  lemma FlatFalls(fb: Bank, x: seq<real>, was: seq<real>, w: seq<real>, i: nat)
    requires fb.Valid() && |w| == fb.S() && |x| == 2 * fb.n <= |was| && i < fb.Flat() && fb.n == 2 * fb.Flat() + fb.S()
    requires Falls(x, was, ShortEdge(fb, w), i)
    ensures Falls(x, was[fb.n + i := x[fb.n + i]], ShortEdge(fb, w), i + 1)
  {
    hide *;
    EdgeAt(fb, w, fb.n - 1 - i);
    MulOne(x[fb.n + i]);
    FallsNext(x, was, ShortEdge(fb, w), i, x[fb.n + i]);
  }

  lemma SlopeFalls(fb: Bank, x: seq<real>, was: seq<real>, w: seq<real>, i: nat)
    requires fb.Valid() && |w| == fb.S() && |x| == 2 * fb.n <= |was| && i < fb.S() && fb.n == 2 * fb.Flat() + fb.S()
    requires Falls(x, was, ShortEdge(fb, w), fb.Flat() + i)
    ensures var k := fb.Flat() + i;
            Falls(x, was[fb.n + k := MulF(x[fb.n + k], w[fb.S() - 1 - i])], ShortEdge(fb, w), k + 1)
  {
    hide *;
    EdgeAt(fb, w, fb.n - 1 - fb.Flat() - i);
    FallsNext(x, was, ShortEdge(fb, w), fb.Flat() + i, MulF(x[fb.n + (fb.Flat() + i)], w[fb.S() - 1 - i]));
  }

  lemma ZeroFalls(fb: Bank, x: seq<real>, was: seq<real>, w: seq<real>, i: nat)
    requires fb.Valid() && |w| == fb.S() && |x| == 2 * fb.n <= |was| && i < fb.Flat() && fb.n == 2 * fb.Flat() + fb.S()
    requires Falls(x, was, ShortEdge(fb, w), fb.Flat() + fb.S() + i)
    ensures var k := fb.Flat() + fb.S() + i;
            Falls(x, was[fb.n + k := 0.0], ShortEdge(fb, w), k + 1)
  {
    hide *;
    var k := fb.Flat() + fb.S() + i;
    EdgeAt(fb, w, fb.n - 1 - k);
    MulZero(x[fb.n + k]);
    FallsNext(x, was, ShortEdge(fb, w), k, 0.0);
  }

  /** The second half of LONG_START_SEQUENCE. */
  method FallStart(fb: Bank, x: seq<real>, buf: array<real>, w: seq<real>)
    requires fb.Valid() && |w| == fb.S() && |x| == 2 * fb.n <= buf.Length
    modifies buf
    ensures Falls(x, buf[..], ShortEdge(fb, w), fb.n)
    ensures buf[..fb.n] == old(buf[..fb.n])
  {
    Sizes(fb);
    var n, s, flat := fb.n, fb.S(), fb.Flat();
    ghost var e := ShortEdge(fb, w);
    hide *;
    NoFalls(x, buf[..], e);
    for i := 0 to flat
      invariant Falls(x, buf[..], e, i)
      invariant buf[..n] == old(buf[..n])
    {
      FlatFalls(fb, x, buf[..], w, i);
      buf[i + n] := x[i + n];
    }
    for i := 0 to s
      invariant Falls(x, buf[..], e, flat + i)
      invariant buf[..n] == old(buf[..n])
    {
      SlopeFalls(fb, x, buf[..], w, i);
      buf[i + n + flat] := MulF(x[i + n + flat], w[s - 1 - i]);
    }
    for i := 0 to flat
      invariant Falls(x, buf[..], e, flat + s + i)
      invariant buf[..n] == old(buf[..n])
    {
      ZeroFalls(fb, x, buf[..], w, i);
      buf[i + n + flat + s] := 0.0;
    }
  }

  lemma NoFalls(x: seq<real>, buf: seq<real>, r: seq<real>)
    requires |x| == 2 * |r| <= |buf|
    ensures Falls(x, buf, r, 0)
  {
  }

  /** The first half of LONG_STOP_SEQUENCE. */
  method RiseStop(fb: Bank, x: seq<real>, buf: array<real>, w: seq<real>)
    requires fb.Valid() && |w| == fb.S() && |x| == 2 * fb.n <= buf.Length
    modifies buf
    ensures Rises(x, buf[..], ShortEdge(fb, w), fb.n)
  {
    Sizes(fb);
    var n, s, flat := fb.n, fb.S(), fb.Flat();
    ghost var e := ShortEdge(fb, w);
    hide MulF, ShortEdge, fb.Valid;
    for i := 0 to flat
      invariant Rises(x, buf[..], e, i)
    {
      buf[i] := 0.0;
      MulZero(x[i]);
      EdgeAt(fb, w, i);
    }
    for i := 0 to s
      invariant Rises(x, buf[..], e, flat + i)
    {
      buf[i + flat] := MulF(x[i + flat], w[i]);
      EdgeAt(fb, w, flat + i);
    }
    for i := 0 to flat
      invariant Rises(x, buf[..], e, flat + s + i)
    {
      buf[i + flat + s] := x[i + flat + s];
      MulOne(x[i + flat + s]);
      EdgeAt(fb, w, flat + s + i);
    }
  }

  method RiseLong(x: seq<real>, buf: array<real>, l: seq<real>)
    requires |x| == 2 * |l| <= buf.Length
    modifies buf
    ensures Rises(x, buf[..], l, |l|)
  {
    hide MulF;
    for i := 0 to |l|
      invariant Rises(x, buf[..], l, i)
    {
      buf[i] := MulF(x[i], l[i]);
    }
  }

  method FallLong(x: seq<real>, buf: array<real>, r: seq<real>)
    requires |x| == 2 * |r| <= buf.Length
    modifies buf
    ensures Falls(x, buf[..], r, |r|)
    ensures buf[..|r|] == old(buf[..|r|])
  {
    hide MulF;
    for i := 0 to |r|
      invariant Falls(x, buf[..], r, i)
      invariant buf[..|r|] == old(buf[..|r|])
    {
      buf[i + |r|] := MulF(x[i + |r|], r[|r| - 1 - i]);
    }
  }

  lemma RisesStill(x: seq<real>, was: seq<real>, buf: seq<real>, l: seq<real>)
    requires |x| == 2 * |l| <= |was| == |buf| && Rises(x, was, l, |l|)
    requires buf[..|l|] == was[..|l|]
    ensures Rises(x, buf, l, |l|)
  {
    hide MulF;
    forall i | 0 <= i < |l| ensures buf[i] == MulF(x[i], l[i]) {
      assert buf[i] == buf[..|l|][i] == was[..|l|][i];
    }
  }

  lemma BothHalves(x: seq<real>, buf: seq<real>, l: seq<real>, r: seq<real>)
    requires |l| == |r| && |x| == 2 * |l| <= |buf| && Rises(x, buf, l, |l|) && Falls(x, buf, r, |r|)
    ensures buf[..|x|] == Windowed(l, r, x)
  {
    hide MulF;
  }

  /** Sample i of the 2n samples x under the window of a long sequence. */
  function UnderLong(fb: Bank, kind: Kind, x: seq<real>, i: nat): real
    requires fb.Valid() && kind.Valid() && |x| == 2 * fb.n && i < 2 * fb.n
  {
    var n, s, flat := fb.n, fb.n / 8, 7 * (fb.n / 16);
    if i < n then
      if kind.sequence.LongStop? then
        if i < flat then 0.0 else if flat + s <= i then x[i] else MulF(x[i], fb.short[kind.prev][i - flat])
      else MulF(x[i], fb.long[kind.prev][i])
    else
      if kind.sequence.LongStart? then
        if i < n + flat then x[i] else if n + flat + s <= i then 0.0
        else MulF(x[i], fb.short[kind.shape][s - 1 - (i - n - flat)])
      else MulF(x[i], fb.long[kind.shape][2 * n - 1 - i])
  }

  /** Rising with the previous frame's shape and falling with this one's. */
  lemma LongWindows(fb: Bank, kind: Kind, x: seq<real>)
    requires fb.Valid() && kind.Valid() && |x| == 2 * fb.n && !kind.sequence.EightShort?
    ensures Windowed(Left(fb, kind), Right(fb, kind), x)
         == seq(2 * fb.n, i requires 0 <= i < 2 * fb.n => UnderLong(fb, kind, x, i))
  {
    forall i: nat | i < 2 * fb.n ensures Windowed(Left(fb, kind), Right(fb, kind), x)[i] == UnderLong(fb, kind, x, i) {
      WindowAt(fb, kind, x, i);
    }
  }

  lemma WindowAt(fb: Bank, kind: Kind, x: seq<real>, i: nat)
    requires fb.Valid() && kind.Valid() && |x| == 2 * fb.n && !kind.sequence.EightShort? && i < 2 * fb.n
    ensures Windowed(Left(fb, kind), Right(fb, kind), x)[i] == UnderLong(fb, kind, x, i)
  {
    FlatIs(fb);
    hide MulF, ShortEdge, fb.S, fb.Flat;
    MulZero(x[i]);
    MulOne(x[i]);
    if i < fb.n {
      EdgeAt(fb, fb.short[kind.prev], i);
    } else {
      EdgeAt(fb, fb.short[kind.shape], 2 * fb.n - 1 - i);
    }
  }

  /** `filter_bank_ltp`: any long window, then the forward transform. */
  method FilterBankLtp(fb: Bank, kind: Kind, inData: seq<real>) returns (outMdct: seq<real>)
    requires fb.Valid() && kind.Valid() && |inData| == 2 * fb.n && !kind.sequence.EightShort?
    ensures outMdct == Analysis(fb, kind, inData)
    ensures outMdct == fb.mdct(seq(2 * fb.n, i requires 0 <= i < 2 * fb.n => UnderLong(fb, kind, inData, i)))
  {
    var windowedBuf := new real[2 * 1024](_ => 0.0);
    var wlp, wl, wsp, ws := fb.long[kind.prev], fb.long[kind.shape], fb.short[kind.prev], fb.short[kind.shape];
    hide MulF, Windowed, ShortEdge, Rises, Falls;
    ghost var was := windowedBuf[..];
    match kind.sequence {
      case OnlyLong =>
        WindowLong(inData, windowedBuf, wlp, wl);
      case LongStart =>
        RiseLong(inData, windowedBuf, wlp);
        was := windowedBuf[..];
        FallStart(fb, inData, windowedBuf, ws);
        RisesStill(inData, was, windowedBuf[..], wlp);
      case LongStop =>
        RiseStop(fb, inData, windowedBuf, wsp);
        was := windowedBuf[..];
        FallLong(inData, windowedBuf, wl);
        RisesStill(inData, was, windowedBuf[..], ShortEdge(fb, wsp));
    }
    BothHalves(inData, windowedBuf[..], Left(fb, kind), Right(fb, kind));
    LongWindows(fb, kind, inData);
    outMdct := fb.mdct(windowedBuf[..2 * fb.n]);
  }
}
