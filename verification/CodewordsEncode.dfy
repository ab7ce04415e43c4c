/**
  * The sender's side of a spectral codeword: a table codeword for the values, escapes cut
  * to 16, then a sign bit for each nonzero value, then the escapes themselves.
  */
module CodewordsEncode {
  import opened Words
  import opened Codewords

  /** The place of the leading one of v. */
  function Log(v: nat): (l: nat)
    requires v > 0
    ensures Pow2(l) <= v < 2 * Pow2(l)
  {
    if v == 1 then 0 else
      HalfIs(v);
      1 + Log(v / 2)
  }

  lemma HalfIs(v: nat)
    requires v > 1
    ensures 0 < v / 2 < v && 2 * (v / 2) <= v <= 2 * (v / 2) + 1
  {
  }

  lemma LogIs(v: nat, l: nat)
    requires Pow2(l) <= v < 2 * Pow2(l)
    ensures Log(v) == l
  {
    if Log(v) < l {
      PowMono(Log(v) + 1, l);
    } else if Log(v) > l {
      PowMono(l + 1, Log(v));
    }
  }

  function Times(n: nat): (s: Bits)
    ensures |s| == n && forall k :: 0 <= k < n ==> s[k]
  {
    seq(n, i => true)
  }

  /** An escape: one for every place above 4 of the leading one, a zero, then the bits below it. */
  function EscapeCode(v: nat): (s: Bits)
    requires v >= 16
    ensures |s| >= 5
  {
    LogAtLeast(v);
    Times(Log(v) - 4) + [false] + Low(v - Pow2(Log(v)), Log(v))
  }

  lemma LogAtLeast(v: nat)
    requires v >= 16
    ensures Log(v) >= 4
  {
    ScaleConst4(1);
    if Log(v) < 4 {
      PowMono(Log(v) + 1, 4);
    }
  }

  /** A value behind an escape comes back in 16 bits, with the sign of what the table gave. */
  lemma EscapeDecodes(v: nat, negative: bool, rest: Bits)
    requires v >= 16 && Log(v) <= 30
    ensures Escape(if negative then -16 else 16, EscapeCode(v) + rest)
         == Done([Wrap16(if negative then 0 - v else v)], |EscapeCode(v)|)
  {
    hide *;
    LogAtLeast(v);
    var k, low := Log(v) - 4, Low(v - Pow2(Log(v)), Log(v));
    ValueOfLow(v - Pow2(Log(v)), Log(v));
    EscapeCodeIs(v);
    EscapeParts(k, low, rest);
    EscapeIs(Times(k) + [false] + low + rest, k, v - Pow2(Log(v)), negative);
  }

  lemma EscapeCodeIs(v: nat)
    requires v >= 16
    ensures Log(v) >= 4 && EscapeCode(v) == Times(Log(v) - 4) + [false] + Low(v - Pow2(Log(v)), Log(v))
  {
    hide Times, Low, Scale, Pow2, Log;
    LogAtLeast(v);
  }

  lemma EscapeIs(s: Bits, k: nat, m: nat, negative: bool)
    requires Ones(s) == k <= 26 && 2 * k + 5 <= |s| && Value(s[k + 1..][..k + 4]) == m
    ensures Escape(if negative then -16 else 16, s)
         == Done([Wrap16(if negative then 0 - (Pow2(k + 4) + m) else Pow2(k + 4) + m)], 2 * k + 5)
  {
    hide Ones, Value, Scale;
  }

  lemma LogAtMost(v: nat)
    requires 0 < v <= 0x8000
    ensures Log(v) <= 15
  {
    if Log(v) > 15 {
      PowMono(16, Log(v));
      Pow16();
    }
  }

  lemma EscapeParts(k: nat, low: Bits, rest: Bits)
    ensures Ones(Times(k) + [false] + low + rest) == k
    ensures (Times(k) + [false] + low + rest)[k + 1..][..|low|] == low
  {
    hide *;
    Sliced(Times(k) + [false], low, rest);
    OnesFirst(k, low + rest);
    assert Times(k) + [false] + low + rest == Times(k) + [false] + (low + rest);
  }

  lemma OnesFirst(k: nat, rest: Bits)
    ensures Ones(Times(k) + [false] + rest) == k
  {
    OnesExactly(Times(k) + [false] + rest, k);
  }

  lemma Sliced<T>(a: seq<T>, b: seq<T>, c: seq<T>)
    ensures (a + b + c)[|a|..][..|b|] == b
  {
  }

  // ----- signs

  /** One bit for each nonzero value from i on: set for a negative one. */
  function SignCode(vals: seq<int>, i: nat): Bits
    requires i <= |vals|
    decreases |vals| - i
  {
    if i == |vals| then []
    else (if vals[i] == 0 then [] else [vals[i] < 0]) + SignCode(vals, i + 1)
  }

  /** Absolute values from i on, signed ones before. */
  function Partly(vals: seq<int>, i: nat): (r: seq<int>)
    requires i <= |vals|
    ensures |r| == |vals|
  {
    seq(|vals|, k requires 0 <= k < |vals| => if k < i then vals[k] else Abs(vals[k]))
  }

  lemma {:induction false} SignsDecode(vals: seq<int>, i: nat, rest: Bits)
    requires i <= |vals|
    ensures Signs(Partly(vals, i), i, SignCode(vals, i) + rest) == Done(vals, |SignCode(vals, i)|)
    decreases |vals| - i
  {
    if i == |vals| {
      assert Partly(vals, i) == vals;
    } else {
      SignsDecode(vals, i + 1, rest);
      PartlyNext(vals, i);
      hide *;
      SignsStep(Partly(vals, i), vals, i, rest);
    }
  }

  lemma SignsStep(p: seq<int>, vals: seq<int>, i: nat, rest: Bits)
    requires i < |vals| == |p| && (p[i] == 0 <==> vals[i] == 0)
    ensures |SignCode(vals, i)| == |SignCode(vals, i + 1)| + if vals[i] == 0 then 0 else 1
    ensures vals[i] == 0 ==>
      Signs(p, i, SignCode(vals, i) + rest) == Signs(p, i + 1, SignCode(vals, i + 1) + rest)
    ensures vals[i] != 0 ==>
      Signs(p, i, SignCode(vals, i) + rest)
        == Advance(Signs(p[i := if vals[i] < 0 then -p[i] else p[i]], i + 1, SignCode(vals, i + 1) + rest), 1)
  {
    var c := SignCode(vals, i + 1);
    if vals[i] == 0 {
      assert SignCode(vals, i) == c;
    } else {
      assert SignCode(vals, i) == [vals[i] < 0] + c;
      assert (([vals[i] < 0] + c) + rest)[1..] == c + rest;
    }
  }

  lemma PartlyNext(vals: seq<int>, i: nat)
    requires i < |vals|
    ensures var p := Partly(vals, i);
            && (p[i] == 0 <==> vals[i] == 0)
            && Partly(vals, i + 1) == p[i := if vals[i] < 0 then -p[i] else p[i]]
            && (vals[i] == 0 ==> Partly(vals, i + 1) == p)
  {
  }

  // ----- a whole codeword

  /** What the table holds of a value: escapes are cut to 16, and where signs follow, absolute values. */
  function InTable(cb: nat, v: int): int {
    var a := if HasSigns(cb) then Abs(v) else v;
    if HasEscapes(cb) && a > 16 then 16 else a
  }

  /** The signed values before the escapes are applied. */
  function Cut(cb: nat, v: int): int {
    if HasEscapes(cb) && Abs(v) > 16 then (if v < 0 then -16 else 16) else v
  }

  function InTables(cb: nat, vals: seq<int>): (r: seq<int>)
    ensures |r| == |vals|
  {
    seq(|vals|, k requires 0 <= k < |vals| => InTable(cb, vals[k]))
  }

  function Cuts(cb: nat, vals: seq<int>): (r: seq<int>)
    ensures |r| == |vals|
  {
    seq(|vals|, k requires 0 <= k < |vals| => Cut(cb, vals[k]))
  }

  function EscapeOf(v: int): Bits {
    if Abs(v) >= 16 then EscapeCode(Abs(v)) else []
  }

  /** Values that a codebook can carry: sixteen bits behind an escape, and within the bound of a virtual codebook. */
  predicate CanCarry(cb: nat, vals: seq<int>) {
    && |vals| == Width(cb)
    && (forall k :: 0 <= k < |vals| ==> HasEscapes(cb) ==> -0x8000 <= vals[k] < 0x8000)
    && (forall k :: 0 <= k < |vals| ==> 16 <= cb <= 31 ==> Abs(vals[k]) <= Lav(cb))
  }

  /** w0 is the table codeword of the cut values. */
  ghost predicate IsTableWord(t: Tables, cb: nat, vals: seq<int>, w0: Bits)
    requires WellFormed(t) && IsSpectral(cb)
  {
    Lookup(t[BookNumber(cb)], BookNumber(cb), w0) == Done(InTables(cb, vals), |w0|)
  }

  function SignPart(cb: nat, vals: seq<int>): Bits {
    if HasSigns(cb) then SignCode(Cuts(cb, vals), 0) else []
  }

  function EscapePart(cb: nat, vals: seq<int>): Bits
    requires |vals| == Width(cb)
  {
    if HasEscapes(cb) then EscapeOf(vals[0]) + EscapeOf(vals[1]) else []
  }

  function Encode(cb: nat, vals: seq<int>, w0: Bits): Bits
    requires |vals| == Width(cb)
  {
    w0 + (SignPart(cb, vals) + EscapePart(cb, vals))
  }

  lemma OneEscape(v: int, rest: Bits)
    requires -0x8000 <= v < 0x8000
    ensures Escape(Cut(11, v), EscapeOf(v) + rest) == Done([v], |EscapeOf(v)|)
  {
    if Abs(v) >= 16 {
      LogAtMost(Abs(v));
      EscapeDecodes(Abs(v), v < 0, rest);
      hide Escape, EscapeCode;
    }
  }

  lemma EscapesDecode(vals: seq<int>, rest: Bits)
    requires |vals| == 2 && -0x8000 <= vals[0] < 0x8000 && -0x8000 <= vals[1] < 0x8000
    ensures Escapes([Cut(11, vals[0]), Cut(11, vals[1])], EscapeOf(vals[0]) + EscapeOf(vals[1]) + rest)
         == Done(vals, |EscapeOf(vals[0]) + EscapeOf(vals[1])|)
  {
    hide *;
    var a, b := EscapeOf(vals[0]), EscapeOf(vals[1]);
    OneEscape(vals[0], b + rest);
    OneEscape(vals[1], rest);
    assert a + b + rest == a + (b + rest);
    assert vals == [vals[0], vals[1]];
    Both(Cut(11, vals[0]), Cut(11, vals[1]), a, b, rest, vals[0], vals[1]);
  }

  lemma Both(c0: int, c1: int, a: Bits, b: Bits, rest: Bits, v0: int, v1: int)
    requires Escape(c0, a + (b + rest)) == Done([v0], |a|) && Escape(c1, b + rest) == Done([v1], |b|)
    ensures Escapes([c0, c1], a + (b + rest)) == Done([v0, v1], |a + b|)
  {
    hide Escape;
    assert (a + (b + rest))[|a|..] == b + rest;
  }

  lemma SignPartDecodes(cb: nat, vals: seq<int>, rest: Bits)
    requires IsSpectral(cb) && CanCarry(cb, vals)
    ensures Signed(cb, InTables(cb, vals), SignPart(cb, vals) + rest) == Done(Cuts(cb, vals), |SignPart(cb, vals)|)
  {
    var cuts := Cuts(cb, vals);
    if HasSigns(cb) {
      assert InTables(cb, vals) == Partly(cuts, 0);
      SignsDecode(cuts, 0, rest);
    } else {
      assert InTables(cb, vals) == cuts;
    }
  }

  lemma EscapePartDecodes(cb: nat, vals: seq<int>)
    requires IsSpectral(cb) && CanCarry(cb, vals)
    ensures Escaped(cb, Cuts(cb, vals), EscapePart(cb, vals)) == Done(vals, |EscapePart(cb, vals)|)
    ensures CheckLav(cb, vals) == vals
  {
    var cuts := Cuts(cb, vals);
    if HasEscapes(cb) {
      EscapesDecode(vals, []);
      assert cuts == [Cut(11, vals[0]), Cut(11, vals[1])];
      assert EscapeOf(vals[0]) + EscapeOf(vals[1]) + [] == EscapePart(cb, vals);
    } else {
      assert cuts == vals;
    }
  }

  /** The decoder gives back the values the codeword was made from, and takes all its bits. */
  lemma EncodeDecodes(t: Tables, cb: nat, vals: seq<int>, w0: Bits)
    requires WellFormed(t) && IsSpectral(cb) && CanCarry(cb, vals) && IsTableWord(t, cb, vals, w0)
    ensures Decode(t, cb, Encode(cb, vals, w0)) == Done(vals, |Encode(cb, vals, w0)|)
  {
    var a, e := SignPart(cb, vals), EscapePart(cb, vals);
    SignPartDecodes(cb, vals, e);
    EscapePartDecodes(cb, vals);
    TableWordFirst(t, cb, vals, w0, a + e);
    assert |vals| == Width(cb) && (HasEscapes(cb) ==> |vals| == 2);
    hide *;
    Assembled(t, cb, w0, a, e, InTables(cb, vals), Cuts(cb, vals), vals);
    EncodeIs(cb, vals, w0);
  }

  lemma Assembled(t: Tables, cb: nat, w0: Bits, a: Bits, e: Bits, table: seq<int>, cuts: seq<int>, vals: seq<int>)
    requires WellFormed(t) && IsSpectral(cb) && |cuts| == |vals| == Width(cb) && (HasEscapes(cb) ==> |vals| == 2)
    requires Lookup(t[BookNumber(cb)], BookNumber(cb), w0 + (a + e)) == Done(table, |w0|)
    requires Signed(cb, table, a + e) == Done(cuts, |a|) && Escaped(cb, cuts, e) == Done(vals, |e|)
    requires CheckLav(cb, vals) == vals
    ensures Decode(t, cb, w0 + (a + e)) == Done(vals, |w0 + (a + e)|)
  {
    hide *;
    Behind(w0, a, e);
    DecodeIs(t, cb, w0 + (a + e), Done(table, |w0|), Done(cuts, |a|), Done(vals, |e|));
  }

  lemma Behind<T>(w: seq<T>, a: seq<T>, e: seq<T>)
    ensures (w + (a + e))[|w|..] == a + e && (w + (a + e))[|w| + |a|..] == e
  {
  }

  lemma EncodeIs(cb: nat, vals: seq<int>, w0: Bits)
    requires |vals| == Width(cb)
    ensures Encode(cb, vals, w0) == w0 + (SignPart(cb, vals) + EscapePart(cb, vals))
  {
  }

  lemma TableWordFirst(t: Tables, cb: nat, vals: seq<int>, w0: Bits, rest: Bits)
    requires WellFormed(t) && IsSpectral(cb) && IsTableWord(t, cb, vals, w0)
    ensures Lookup(t[BookNumber(cb)], BookNumber(cb), w0 + rest) == Done(InTables(cb, vals), |w0|)
  {
    hide Lookup, InTables, WellFormedBook;
    assert (w0 + rest)[..|w0|] == w0;
    LookupLocal(t[BookNumber(cb)], BookNumber(cb), w0, w0 + rest);
  }

  /** The three stages of a codeword put together. */
  lemma DecodeIs(t: Tables, cb: nat, s: Bits, a: Outcome, b: Outcome, c: Outcome)
    requires WellFormed(t) && IsSpectral(cb) && a.Done? && b.Done? && c.Done?
    requires Lookup(t[BookNumber(cb)], BookNumber(cb), s) == a && Signed(cb, a.vals, s[a.n..]) == b
    requires |b.vals| == Width(cb) && a.n + b.n <= |s| && Escaped(cb, b.vals, s[a.n + b.n..]) == c
    requires (HasEscapes(cb) ==> |c.vals| == 2) && CheckLav(cb, c.vals) == c.vals
    ensures Decode(t, cb, s) == Done(c.vals, a.n + b.n + c.n)
  {
    hide Lookup, Signed, Escaped, CheckLav, WellFormedBook;
  }
}
