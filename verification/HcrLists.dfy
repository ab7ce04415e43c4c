/**
  * `reordered_spectral_data` on lists of bits, for data of any kind: step 1 cuts the data
  * into segments and takes a priority codeword off each, step 2 shares out the rest. The
  * list of codewords, in the pre-sorted order of section 8.5.3.3.1, is given.
  */
module HcrLists {
  import opened Codewords
  import opened HcrSchedule
  import opened HcrConservation

  /** `maxCwLen[]` */
  function MaxCwLen(cb: nat): (n: nat)
    ensures n <= 49
  {
    match cb
    case 1 => 11
    case 2 => 9
    case 3 => 20
    case 4 => 16
    case 5 => 13
    case 6 => 11
    case 7 => 14
    case 8 => 12
    case 9 => 17
    case 10 => 14
    case 11 => 49
    case 16 => 14
    case 17 => 17
    case 18 => 21
    case 19 => 21
    case 20 => 25
    case 21 => 25
    case 22 => 29
    case 23 => 29
    case 24 => 29
    case 25 => 29
    case 26 => 33
    case 27 => 33
    case 28 => 33
    case 29 => 37
    case 30 => 37
    case 31 => 41
    case _ => 0
  }

  /** `segmentWidth` */
  function SegWidth(cb: nat, longest: nat): (w: nat)
    requires IsSpectral(cb)
    ensures w <= 49 && w <= longest && w <= MaxCwLen(cb) && (w == longest || w == MaxCwLen(cb))
  {
    Min(MaxCwLen(cb), longest)
  }

  /** What is known before any bit is read: for each codeword its codebook and place, and the longest length. */
  datatype Listing = Listing(t: Tables, cbs: seq<nat>, sps: seq<nat>, longest: nat) {

    ghost predicate Legal() {
      WellFormed(t) && |cbs| == |sps| && Spectral()
    }

    predicate Spectral() {
      forall i :: 0 <= i < |cbs| ==> IsSpectral(cbs[i])
    }

    /** Bits in the first g segments. */
    function Before(g: nat): nat
      requires g <= |cbs| && Spectral()
    {
      if g == 0 then 0 else Before(g - 1) + SegWidth(cbs[g - 1], longest)
    }

    /** How many segments fit into len bits one after another, from segment i on. */
    function SegmentsFrom(i: nat, len: nat): (n: nat)
      requires i <= |cbs| && Spectral()
      ensures i <= n <= |cbs| && (n < |cbs| ==> Before(n + 1) > len)
      ensures Before(i) <= len ==> Before(n) <= len
      decreases |cbs| - i
    {
      if i < |cbs| && Before(i + 1) <= len then SegmentsFrom(i + 1, len) else i
    }

    function Segments(len: nat): (n: nat)
      requires Spectral()
      ensures n <= |cbs| && Before(n) <= len
    {
      SegmentsFrom(0, len)
    }

    lemma {:induction false} BeforeMono(g: nat, h: nat)
      requires g <= h <= |cbs| && Spectral()
      ensures Before(g) <= Before(h)
    {
      if g < h {
        BeforeMono(g, h - 1);
      }
    }

    // ----- step 1

    /** The bits of segment g. */
    function Piece(data: Marks, g: nat): (s: Marks)
      requires Spectral() && g < Segments(|data|)
      ensures |s| == SegWidth(cbs[g], longest)
    {
      BeforeMono(g + 1, Segments(|data|));
      data[Before(g)..Before(g + 1)]
    }

    /** The priority codeword at the front of segment g. */
    ghost function Priority(data: Marks, g: nat): Outcome
      requires Legal() && g < Segments(|data|)
    {
      Decode(t, cbs[g], BitsOf(Piece(data, g)))
    }

    /** What it leaves, turned round. A failed read leaves nothing. */
    ghost function Leftover(data: Marks, g: nat): (s: Marks)
      requires Legal() && g < Segments(|data|)
    {
      var o := Priority(data, g);
      Reverse(if o.Done? then Piece(data, g)[o.n..] else [])
    }

    /** The bits that make up no whole segment; they are not read when there is a segment for each codeword. */
    function Behind(data: Marks): Marks
      requires Spectral()
    {
      if Segments(|data|) < |cbs| then data[Before(Segments(|data|))..] else []
    }

    /** Segment g when step 2 starts: the last one takes the bits behind it, too. */
    ghost function StartSegment(data: Marks, g: nat): Marks
      requires Legal() && g < Segments(|data|)
    {
      (if g == Segments(|data|) - 1 then Reverse(Behind(data)) else []) + Leftover(data, g)
    }

    /** The desk after step 1: nothing is stashed, and no codeword without a segment of its own is decoded. */
    ghost function StepOne(data: Marks): (d: Desk)
      requires Legal() && Segments(|data|) > 0
      ensures d.Valid() && |d.segs| == Segments(|data|) && |d.done| == |cbs| - Segments(|data|)
    {
      var S := Segments(|data|);
      Desk(seq(S, g requires 0 <= g < S => StartSegment(data, g)),
           seq(|cbs| - S, i => []), seq(|cbs| - S, i => []), seq(|cbs| - S, i => false))
    }

    // ----- step 2

    ghost function StepTwo(data: Marks): (d: Desk)
      requires Legal() && Segments(|data|) > 0
      ensures d.Valid() && |d.done| == |cbs| - Segments(|data|)
    {
      var S := Segments(|data|);
      AfterSets(DecodedLength(t), cbs[S..], StepOne(data), 1, Sets(|cbs|, S))
    }

    /** What codeword i is decoded to in the end. */
    ghost function Result(data: Marks, i: nat): Outcome
      requires Legal() && Segments(|data|) > 0 && i < |cbs|
    {
      var S := Segments(|data|);
      if i < S then Priority(data, i)
      else if StepTwo(data).done[i - S] then Decode(t, cbs[i], BitsOf(StepTwo(data).used[i - S]))
      else Short
    }
  }
}
