/**
  * Why segments are as wide as they are: `maxCwLen[]` against the lengths of the table words,
  * the sign bits and the escapes.
  */
module HcrWidths {
  import opened Words
  import opened Codewords
  import opened CodewordsEncode
  import opened HcrLists

  /** The longest word in the tables of a codebook. */
  function LongestWord(cb: nat): nat {
    match cb
    case 1 => 11
    case 2 => 9
    case 3 => 16
    case 4 => 12
    case 5 => 13
    case 6 => 11
    case 7 => 12
    case 8 => 10
    case 9 => 15
    case 10 => 12
    case _ => 12
  }

  // ----- the widths

  /** The largest absolute value a width leaves room for; book 16 has room for no escape. */
  function Largest(cb: nat): nat {
    if cb == 11 then 8191 else if cb == 16 then 15 else Lav(cb)
  }

  lemma {:induction false} LogMono(v: nat, u: nat)
    requires 0 < v <= u
    ensures Log(v) <= Log(u)
  {
    if v > 1 {
      HalfIs(v);
      HalfIs(u);
      LogMono(v / 2, u / 2);
    }
  }

  lemma EscapeLength(v: nat)
    requires v >= 16
    ensures Log(v) >= 4 && |EscapeCode(v)| == 2 * Log(v) - 3
  {
    hide Log, Low;
    EscapeCodeIs(v);
  }

  lemma Powers()
    ensures Pow2(4) == 16 && Pow2(5) == 32 && Pow2(6) == 64 && Pow2(7) == 128 && Pow2(8) == 256
    ensures Pow2(9) == 512 && Pow2(10) == 1024 && Pow2(12) == 4096
  {
    ScaleConst4(1);
    ScaleConst8(1);
    assert Pow2(12) == 2 * (2 * (2 * (2 * Pow2(8))));
  }

  /** Where an escape is possible, a width has room for a pair of them: five bits of the table, two signs, two escapes. */
  lemma WidthOfEscapes(cb: nat)
    requires cb == 11 || 17 <= cb <= 31
    ensures Largest(cb) >= 16 && MaxCwLen(cb) == 5 + 2 + 2 * |EscapeCode(Largest(cb))|
  {
    hide EscapeCode, Log, Scale;
    EscapeLength(Largest(cb));
    Powers();
    var l := (MaxCwLen(cb) - 1) / 4;
    LogIs(Largest(cb), l);
  }

  /** Everywhere else for the longest word of the table, with a sign bit for each value where signs follow. */
  lemma WidthOfWords(cb: nat)
    requires 1 <= cb <= 10 || cb == 16
    ensures cb == 1 || cb == 2 || cb == 5 || cb == 6 ==> MaxCwLen(cb) == LongestWord(cb)
    ensures cb == 3 || cb == 4 ==> MaxCwLen(cb) == LongestWord(cb) + 4
    ensures 7 <= cb <= 10 || cb == 16 ==> MaxCwLen(cb) == LongestWord(cb) + 2
  {
  }

  // ----- the widths suffice

  /** The word of a pair with escapes is short: 5 bits for two of them, at most 10 for one. */
  ghost predicate WordLengths(t: Tables, cb: nat)
    requires WellFormed(t) && 1 <= cb <= 11
  {
    forall s: Bits :: Lookup(t[cb], cb, s).Done? ==> LengthIs(cb, Lookup(t[cb], cb, s))
  }

  predicate LengthIs(cb: nat, o: Outcome)
    requires o.Done?
  {
    && o.n <= LongestWord(cb)
    && (cb == 11 && |o.vals| == 2 && (o.vals[0] == 16 || o.vals[1] == 16) ==>
          o.n <= if o.vals[0] == o.vals[1] then 5 else 10)
  }

  lemma OneSign(vals: seq<int>, i: nat)
    requires i < |vals|
    ensures |SignCode(vals, i)| == |SignCode(vals, i + 1)| + if vals[i] == 0 then 0 else 1
  {
    var rest := SignCode(vals, i + 1);
    assert SignCode(vals, i) == (if vals[i] == 0 then [] else [vals[i] < 0]) + rest;
  }

  lemma {:induction false} SignLength(vals: seq<int>, i: nat)
    requires i <= |vals|
    ensures |SignCode(vals, i)| <= |vals| - i
    decreases |vals| - i
  {
    hide SignCode;
    if i < |vals| {
      SignLength(vals, i + 1);
      OneSign(vals, i);
    } else {
      NoSigns(vals);
    }
  }

  lemma NoSigns(vals: seq<int>)
    ensures SignCode(vals, |vals|) == []
  {
  }

  lemma {:induction false} AllSigned(vals: seq<int>, i: nat)
    requires i <= |vals| && forall k :: 0 <= k < |vals| ==> vals[k] != 0
    ensures |SignCode(vals, i)| == |vals| - i
    decreases |vals| - i
  {
    hide SignCode;
    if i < |vals| {
      AllSigned(vals, i + 1);
      OneSign(vals, i);
    } else {
      NoSigns(vals);
    }
  }

  predicate Moderate(cb: nat, vals: seq<int>) {
    cb == 11 || cb >= 16 ==> forall k :: 0 <= k < |vals| ==> Abs(vals[k]) <= Largest(cb)
  }

  lemma EscapeWithin(cb: nat, v: int)
    requires HasEscapes(cb) && cb <= 31 && IsSpectral(cb) && Abs(v) <= Largest(cb)
    ensures Abs(v) < 16 ==> EscapeOf(v) == []
    ensures Abs(v) >= 16 ==> cb != 16 && |EscapeOf(v)| >= 5 && 7 + 2 * |EscapeOf(v)| <= MaxCwLen(cb)
    ensures Abs(v) >= 16 && Abs(v) == Largest(cb) ==> 7 + 2 * |EscapeOf(v)| == MaxCwLen(cb)
  {
    hide EscapeCode, Log, MaxCwLen, Lav;
    if Abs(v) >= 16 {
      assert cb != 16;
      WidthOfEscapes(cb);
      EscapeLength(Abs(v));
      EscapeLength(Largest(cb));
      LogMono(Abs(v), Largest(cb));
    }
  }

  /** The parts of a codeword, by their lengths. */
  lemma Parts(t: Tables, cb: nat, vals: seq<int>, w0: Bits)
    requires WellFormed(t) && IsSpectral(cb) && CanCarry(cb, vals) && IsTableWord(t, cb, vals, w0)
    requires WordLengths(t, BookNumber(cb))
    ensures LengthIs(BookNumber(cb), Done(InTables(cb, vals), |w0|))
    ensures |vals| == Width(cb)
    ensures |Encode(cb, vals, w0)| == |w0| + |SignPart(cb, vals)| + |EscapePart(cb, vals)|
    ensures |SignPart(cb, vals)| <= if HasSigns(cb) then Width(cb) else 0
    ensures HasSigns(cb) && (forall k :: 0 <= k < |vals| ==> vals[k] != 0) ==> |SignPart(cb, vals)| == Width(cb)
    ensures HasEscapes(cb) ==> |EscapePart(cb, vals)| == |EscapeOf(vals[0])| + |EscapeOf(vals[1])|
    ensures !HasEscapes(cb) ==> EscapePart(cb, vals) == []
  {
    hide Lookup, SignCode, EscapeCode, EscapeOf, WellFormed, LongestWord;
    var c := Cuts(cb, vals);
    SignLength(c, 0);
    if forall k :: 0 <= k < |c| ==> c[k] != 0 {
      AllSigned(c, 0);
    }
  }

  /** No codeword that keeps to the values of its book is longer than a segment may be. */
  lemma WidthSuffices(t: Tables, cb: nat, vals: seq<int>, w0: Bits)
    requires WellFormed(t) && IsSpectral(cb) && CanCarry(cb, vals) && IsTableWord(t, cb, vals, w0)
    requires WordLengths(t, BookNumber(cb))
    requires Moderate(cb, vals)
    ensures |Encode(cb, vals, w0)| <= MaxCwLen(cb)
  {
    hide Lookup, SignPart, EscapePart, EscapeOf, WellFormed, MaxCwLen, Encode, IsTableWord, WordLengths, Largest;
    Parts(t, cb, vals, w0);
    if HasEscapes(cb) {
      EscapeWithin(cb, vals[0]);
      EscapeWithin(cb, vals[1]);
      PairWidth(cb);
      assert InTables(cb, vals) == [InTable(cb, vals[0]), InTable(cb, vals[1])];
    } else {
      WidthOfWords(cb);
    }
  }

  lemma PairWidth(cb: nat)
    requires cb == 11 || 16 <= cb <= 31
    ensures MaxCwLen(cb) >= 14 && (cb != 16 ==> MaxCwLen(cb) >= 17)
  {
  }

  /** And where every value takes its sign bit and the word is as long as can be, it needs all of it. */
  lemma WidthNeeded(t: Tables, cb: nat, vals: seq<int>, w0: Bits)
    requires WellFormed(t) && IsSpectral(cb) && CanCarry(cb, vals) && IsTableWord(t, cb, vals, w0)
    requires WordLengths(t, BookNumber(cb)) && forall k :: 0 <= k < |vals| ==> vals[k] != 0
    requires if cb <= 10 || cb == 16 then |w0| == LongestWord(cb) else |w0| == 5
    requires cb == 16 ==> Abs(vals[0]) < 16 && Abs(vals[1]) < 16
    requires cb == 11 || cb >= 17 ==> Abs(vals[0]) == Largest(cb) == Abs(vals[1])
    ensures |Encode(cb, vals, w0)| == MaxCwLen(cb)
  {
    hide Lookup, SignPart, EscapePart, EscapeOf, WellFormed, MaxCwLen, Encode, IsTableWord, WordLengths;
    Parts(t, cb, vals, w0);
    if HasEscapes(cb) {
      EscapeWithin(cb, vals[0]);
      EscapeWithin(cb, vals[1]);
    }
    if cb <= 10 || cb == 16 {
      WidthOfWords(cb);
    } else {
      WidthOfEscapes(cb);
    }
  }

  /** Book 16 may carry a pair of sixteens, but such a codeword needs three bits more than its segment has. */
  lemma SixteenTooWide(t: Tables, vals: seq<int>, w0: Bits)
    requires WellFormed(t) && |vals| == 2 && IsTableWord(t, 16, vals, w0) && WordLengths(t, 11) && |w0| == 5
    requires Abs(vals[0]) == 16 == Abs(vals[1])
    ensures CanCarry(16, vals) && |Encode(16, vals, w0)| == 17 == MaxCwLen(16) + 3
  {
    hide Lookup, SignPart, EscapePart, WellFormed, Encode, IsTableWord, WordLengths, EscapeCode, Log, Scale;
    Parts(t, 16, vals, w0);
    EscapeLength(16);
    Powers();
    LogIs(16, 4);
  }
}
