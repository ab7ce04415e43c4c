/**
  `reordered_spectral_data` in its registers and arrays, from the bit stream on, for data of
  any kind: it does what the decoder of `HcrLists` does, as long as the registers hold
  what they are asked to. The list of codewords, in pre-sorted order, is given.
 */
module HcrDecode {
  import opened Words
  import opened HcrWords
  import opened BitReader
  import opened Codewords
  import opened HuffmanHcr
  import opened HcrSchedule
  import opened Hcr
  import opened HcrConservation
  import opened HcrStepTwo
  import opened HcrLists

  // ----- reading a segment

  /** The two words of a register that holds a, or a followed by the 32 bits b. */
  lemma SmallRegister(a: Bits)
    requires |a| <= 32
    ensures var r := Register(Value(a), 0, |a|);
            r.Valid() && r.Content() == a && forall k :: |a| <= k < 64 ==> !r.At(k)
  {
    hide Bit, Value, Low, Pow2;
    var r := Register(Value(a), 0, |a|);
    PowWord();
    ValueBelow(a);
    PowMono(|a|, 32);
    LowOfValue(a);
    forall j | 0 <= j < |a| ensures r.Content()[j] == a[j] {
      LowAt(Value(a), |a|, j);
      assert r.Content()[j] == r.At(|a| - 1 - j);
    }
    forall k | |a| <= k < 64 ensures !r.At(k) {
      HighClear(Value(a), |a|, k);
      HighClear(0, 0, k - if k < 32 then 0 else 32);
    }
  }

  lemma WideRegister(a: Bits, b: Bits)
    requires |a| <= 32 && |b| == 32
    ensures var r := Register(Value(b), Value(a), |a| + 32);
            r.Valid() && r.Content() == a + b && forall k :: |a| + 32 <= k < 64 ==> !r.At(k)
  {
    hide Bit, Value, Low, Pow2;
    var r := Register(Value(b), Value(a), |a| + 32);
    PowWord();
    ValueBelow(a);
    ValueBelow(b);
    PowMono(|a|, 32);
    LowOfValue(a);
    LowOfValue(b);
    forall j | 0 <= j < |a| + 32 ensures r.Content()[j] == (a + b)[j] {
      assert r.Content()[j] == r.At(|a| + 32 - 1 - j);
      if j < |a| {
        LowAt(Value(a), |a|, j);
      } else {
        LowAt(Value(b), 32, j - |a|);
      }
    }
    forall k | |a| + 32 <= k < 64 ensures !r.At(k) {
      HighClear(Value(a), |a|, k - 32);
    }
  }

  /** `read_segment` */
  method ReadSegment(segwidth: nat, ld: BitFile) returns (r: Register)
    requires ld.Valid() && segwidth <= 64 && (ld.bitsLeft > 0 || (segwidth != 32 && segwidth != 64))
    modifies ld
    ensures ld.Valid() && (ld.bitsLeft == 0 <==> segwidth == 0 && old(ld.bitsLeft) == 0)
    ensures ld.Pos() == old(ld.Pos()) + segwidth
    ensures r.Valid() && r.len == segwidth && r.Content() == old(ld.Next(segwidth))
    ensures forall k :: segwidth <= k < 64 ==> !r.At(k)
  {
    hide Value, StreamBit, BitFile.Valid, Register.Content, Register.At;
    ghost var p := ld.Pos();
    if segwidth > 32 {
      var bufb := ld.GetBits(segwidth - 32);
      var bufa := ld.GetBits(32);
      r := Register(bufa, bufb, segwidth);
      ghost var a, b := Stream(ld.buffer, p, segwidth - 32), Stream(ld.buffer, p + (segwidth - 32), 32);
      WideRegister(a, b);
      assert Stream(ld.buffer, p, segwidth) == a + b;
    } else {
      var bufa := ld.GetBits(segwidth);
      r := Register(bufa, 0, segwidth);
      SmallRegister(Stream(ld.buffer, p, segwidth));
    }
  }

  // ----- what is left after the last whole segment

  /** The bits after the last whole segment join its leftover. */
  function MergeLast(prev: Register, extra: Register): Register
    requires prev.len + extra.len <= 63
  {
    var n := RewrevBits(extra.(len := extra.len + prev.len));
    if prev.len > 32 then
      Register(n.bufa + ShowBits(prev, 32), n.bufb + ShowBits(prev, prev.len - 32), prev.len + extra.len)
    else
      Register(n.bufa + ShowBits(prev, prev.len), n.bufb, prev.len + extra.len)
  }

  /** What the merge makes of the leftover: beyond 32 bits, its first 32 bits come twice. */
  function Taken(c: Bits): Bits {
    if |c| > 32 then c[..|c| - 32] + c[..32] else c
  }

  lemma {:induction false} LowClear(x: nat, p: nat)
    requires forall i :: 0 <= i < p ==> !Bit(x, i)
    ensures x == Scale(Shr(x, p), p)
  {
    if p > 0 {
      assert !Bit(x, 0);
      forall i | 0 <= i < p - 1 ensures !Bit(x / 2, i) {
        assert !Bit(x, i + 1);
      }
      LowClear(x / 2, p - 1);
    }
  }

  /** After the reversal at the total length, the low prev.len bits are clear. */
  lemma MergeReversed(prev: Register, extra: Register, k: nat)
    requires prev.Valid() && extra.Valid() && 0 < prev.len + extra.len <= 63 && k < prev.len + extra.len
    requires forall k :: extra.len <= k < 64 ==> !extra.At(k)
    ensures var n := RewrevBits(extra.(len := extra.len + prev.len));
            n.Valid() && n.At(k) == (k >= prev.len && extra.At(prev.len + extra.len - 1 - k))
  {
    hide Bit, RewrevBits;
    var x := extra.(len := extra.len + prev.len);
    RewrevContent(x);
    RewrevAt(x, k);
    assert x.At(x.len - 1 - k) == extra.At(x.len - 1 - k);
  }

  /** The bit of the leftover that ends up as bit k. */
  function TakenFrom(len: nat, k: nat): nat {
    if len > 32 && k < 32 then k + len - 32 else k
  }

  lemma MergeAt(prev: Register, extra: Register, k: nat)
    requires prev.Valid() && extra.Valid() && prev.len + extra.len <= 63 && k < prev.len + extra.len
    requires forall k :: extra.len <= k < 64 ==> !extra.At(k)
    ensures MergeLast(prev, extra).Valid()
    ensures MergeLast(prev, extra).At(k)
         == if k < prev.len then prev.At(TakenFrom(prev.len, k)) else extra.At(prev.len + extra.len - 1 - k)
  {
    hide Bit, RewrevBits, ShowBits;
    var n := RewrevBits(extra.(len := extra.len + prev.len));
    var low := if prev.len > 32 then 32 else prev.len;
    forall i | 0 <= i < prev.len ensures !n.At(i) {
      MergeReversed(prev, extra, i);
    }
    MergeReversed(prev, extra, k);
    forall i | 0 <= i < low ensures !Bit(n.bufa, i) {
      assert !n.At(i);
    }
    MergedWord(n.bufa, prev, low);
    forall i | 0 <= i < prev.len - low ensures !Bit(n.bufb, i) {
      assert !n.At(i + 32);
    }
    MergedWord(n.bufb, prev, prev.len - low);
    if k < 32 {
      MergedBit(n.bufa, prev, low, k);
    } else {
      MergedBit(n.bufb, prev, prev.len - low, k - 32);
    }
    NothingShown(prev);
  }

  lemma NothingShown(prev: Register)
    requires prev.Valid()
    ensures ShowBits(prev, 0) == 0
  {
  }

  lemma MergeLastContent(prev: Register, extra: Register)
    requires prev.Valid() && extra.Valid() && prev.len + extra.len <= 63
    requires forall k :: extra.len <= k < 64 ==> !extra.At(k)
    ensures MergeLast(prev, extra).Valid()
    ensures MergeLast(prev, extra).Content() == Rev(extra.Content()) + Taken(prev.Content())
  {
    hide Register.At, RewrevBits, ShowBits;
    var T, m := prev.len + extra.len, MergeLast(prev, extra);
    if T == 0 {
      NothingMerged(prev, extra);
    } else {
      MergeAt(prev, extra, 0);
    }
    forall j | 0 <= j < T ensures m.Content()[j] == (Rev(extra.Content()) + Taken(prev.Content()))[j] {
      MergeAt(prev, extra, T - 1 - j);
      assert m.Content()[j] == m.At(T - 1 - j);
      if j < extra.len {
        assert Rev(extra.Content())[j] == extra.Content()[extra.len - 1 - j] == extra.At(j);
      } else {
        TakenAt(prev, T - 1 - j);
      }
    }
  }

  lemma TakenAt(prev: Register, k: nat)
    requires prev.Valid() && k < prev.len <= 64
    ensures |Taken(prev.Content())| == prev.len && Taken(prev.Content())[prev.len - 1 - k] == prev.At(TakenFrom(prev.len, k))
  {
    var c := prev.Content();
    assert c[prev.len - 1 - TakenFrom(prev.len, k)] == prev.At(TakenFrom(prev.len, k));
  }

  /** A leftover of more than 32 bits is joined right exactly if its last 32 bits repeat its first 32. */
  lemma MergeLastExact(prev: Register, extra: Register)
    requires prev.Valid() && extra.Valid() && prev.len + extra.len <= 63
    requires forall k :: extra.len <= k < 64 ==> !extra.At(k)
    ensures var c := prev.Content();
            MergeLast(prev, extra).Content() == Rev(extra.Content()) + c <==> (|c| > 32 ==> c[|c| - 32..] == c[..32])
  {
    MergeLastContent(prev, extra);
    hide MergeLast, Register.Content;
    var c, e := prev.Content(), Rev(extra.Content());
    assert (e + c)[|e|..] == c && (e + Taken(c))[|e|..] == Taken(c);
    if |c| > 32 {
      assert c == c[..|c| - 32] + c[|c| - 32..];
      assert c[|c| - 32..] == c[|c| - 32..] && Taken(c)[|c| - 32..] == c[..32];
    }
  }

  lemma NothingMerged(prev: Register, extra: Register)
    requires prev.Valid() && extra.Valid() && prev.len == extra.len == 0
    ensures MergeLast(prev, extra).Valid()
  {
  }

  /** Adding the first bits of a register below clear ones. */
  lemma MergedWord(x: nat, prev: Register, bits: nat)
    requires prev.Valid() && bits <= 32 && x < WORD
    requires forall i :: 0 <= i < bits ==> !Bit(x, i)
    ensures x + ShowBits(prev, bits) < WORD
  {
    PowWord();
    ShowBelow(prev, bits);
    LowClear(x, bits);
    ShrBelow(x, 32 - bits, bits);
    ScaleBelow(Shr(x, bits), 32 - bits, bits);
  }

  lemma MergedBit(x: nat, prev: Register, bits: nat, k: nat)
    requires prev.Valid() && bits <= 32 && bits <= prev.len && x < WORD && k < 32
    requires forall i :: 0 <= i < bits ==> !Bit(x, i)
    ensures Bit(x + ShowBits(prev, bits), k) == if k < bits then prev.At(k + prev.len - bits) else Bit(x, k)
  {
    hide Bit, ShowBits, Shr, Scale;
    ShowBelow(prev, bits);
    LowClear(x, bits);
    JoinBit(Shr(x, bits), ShowBits(prev, bits), bits, k);
    if k < bits {
      ShowBit(prev, bits, k);
    } else {
      ShrBit(x, bits, k - bits);
    }
  }

  // ----- what the registers have to hold

  /** Bits, marked by their positions. */
  function MarksOf(s: Bits): (m: Marks)
    ensures BitsOf(m) == s
  {
    seq(|s|, k requires 0 <= k < |s| => Mark(k, s[k]))
  }

  /** What the last segment's leftover has to be for the bits behind it to join it right. */
  predicate JoinHolds(c: Bits) {
    |c| > 32 ==> c[|c| - 32..] == c[..32]
  }

  /**
    * No segment has more than 63 bits when it is turned, the leftover that the last bits of
    * the data join survives that, no escape shifts further than C defines, and what the visits
    * of step 2 merge fits.
    */
  ghost predicate RegistersHold(list: Listing, data: Marks)
    requires list.Legal()
  {
    var S := list.Segments(|data|);
    S > 0 ==>
      && (forall g :: 0 <= g < S ==> PriorityHolds(list, data, g))
      && (list.Behind(data) != [] ==> JoinHolds(BitsOf(list.Leftover(data, S - 1))))
      && SetsHold(list.t, list.cbs[S..], list.StepOne(data), 1, Sets(|list.cbs|, S))
  }

  ghost predicate PriorityHolds(list: Listing, data: Marks, g: nat)
    requires list.Legal() && g < list.Segments(|data|)
  {
    !list.Priority(data, g).Wild? && |list.StartSegment(data, g)| <= 63
  }

  /** Reading 32 bits at once is defined unless no bit is left in the reader's first word. */
  predicate Defined(list: Listing, bitsLeft: nat) {
    bitsLeft > 0 || (list.cbs != [] && IsSpectral(list.cbs[0]) && SegWidth(list.cbs[0], list.longest) != 32)
  }

  function Places(list: Listing): Plan {
    Plan(list.t, list.cbs, list.sps)
  }

  // ----- step 1

  /** One priority codeword: read its segment, decode it, keep the leftover turned round. */
  method DecodePriority(t: Tables, cb: nat, sp: nat, segwidth: nat, ld: BitFile, spectral: array<int>)
    returns (r: Register)
    requires WellFormed(t) && IsSpectral(cb) && segwidth <= 63
    requires ld.Valid() && (ld.bitsLeft > 0 || segwidth != 32) && sp + Width(cb) <= spectral.Length
    requires !Decode(t, cb, ld.Next(segwidth)).Wild?
    modifies ld, spectral
    ensures ld.Valid() && (ld.bitsLeft == 0 <==> segwidth == 0 && old(ld.bitsLeft) == 0)
    ensures ld.Pos() == old(ld.Pos()) + segwidth
    ensures var s := old(ld.Next(segwidth)); var o := Decode(t, cb, s);
            && r.Valid() && r.len <= 63 && r.Content() == Rev(if o.Done? then s[o.n..] else [])
            && (o.Done? ==> spectral[sp..sp + Width(cb)] == o.vals)
    ensures spectral[..sp] == old(spectral[..sp])
    ensures spectral[sp + Width(cb)..] == old(spectral[sp + Width(cb)..])
  {
    hide Decode, WellFormed, Register.Content, Register.At, BitFile.Valid, Stream, RewrevBits;
    ghost var s := ld.Next(segwidth);
    r := ReadSegment(segwidth, ld);
    ghost var o := Decode(t, cb, s);
    ContentAfter(r, if o.Done? then o.n else 0);
    var r', ret := SpectralData2(t, cb, r, spectral, sp);
    NoBits(r');
    RewrevContent(r');
    r := RewrevBits(r');
    NoBits(r);
  }

  /** The values of priority codeword g, if it is one, are where they belong. */
  ghost predicate Got(list: Listing, data: Marks, g: nat, sp: seq<int>)
    requires list.Legal() && g < list.Segments(|data|)
  {
    var o, at, n := list.Priority(data, g), list.sps[g], Width(list.cbs[g]);
    at + n <= |sp| && (o.Done? ==> sp[at..at + n] == o.vals)
  }

  /** Segments g < n hold what is behind their priority codewords, whose values are in place. */
  ghost predicate Prepared(list: Listing, data: Marks, n: nat, segs: seq<Register>, sp: seq<int>)
    requires list.Legal()
  {
    && n <= |segs| && n <= list.Segments(|data|)
    && forall g :: 0 <= g < n ==> SegmentHolds(list.Leftover(data, g), segs[g]) && Got(list, data, g, sp)
  }

  lemma NothingPrepared(list: Listing, data: Marks, segs: seq<Register>, sp: seq<int>)
    requires list.Legal()
    ensures Prepared(list, data, 0, segs, sp)
  {
  }

  lemma PreparedNext(list: Listing, data: Marks, g: nat, segs: seq<Register>, r: Register, sp: seq<int>, sp': seq<int>)
    requires list.Legal() && g < list.Segments(|data|) && g < |segs| && GoodPlan(Places(list), |sp|)
    requires Prepared(list, data, g, segs, sp)
    requires SegmentHolds(list.Leftover(data, g), r) && Got(list, data, g, sp')
    requires var at, n := list.sps[g], Width(list.cbs[g]);
             |sp'| == |sp| && at + n <= |sp| && sp'[..at] == sp[..at] && sp'[at + n..] == sp[at + n..]
    ensures Prepared(list, data, g + 1, segs[g := r], sp')
  {
    hide SegmentHolds, Decode, WellFormed, Listing.Leftover, Listing.Priority, Listing.Segments;
    forall h | 0 <= h < g ensures Got(list, data, h, sp') {
      assert Got(list, data, h, sp);
      assert Apart(list.sps[h], Width(list.cbs[h]), list.sps[g], Width(list.cbs[g]));
      Untouched(sp, sp', list.sps[g], Width(list.cbs[g]), list.sps[h], Width(list.cbs[h]));
    }
  }

  /** The stream carries the piece of segment g where the reader stands. */
  lemma PieceCarried(list: Listing, data: Marks, g: nat, buffer: seq<Byte>, p: nat)
    requires list.Legal() && g < list.Segments(|data|) && BitsOf(data) == Stream(buffer, p, |data|)
    ensures g < |list.cbs| == |list.sps| && IsSpectral(list.cbs[g]) && list.Before(g + 1) <= |data|
    ensures list.Before(g + 1) == list.Before(g) + SegWidth(list.cbs[g], list.longest)
    ensures var s := Stream(buffer, p + list.Before(g), SegWidth(list.cbs[g], list.longest));
            var o := Decode(list.t, list.cbs[g], s);
            && o == list.Priority(data, g)
            && BitsOf(list.Leftover(data, g)) == Rev(if o.Done? then s[o.n..] else [])
  {
    hide *;
    PieceSizes(list, data, g);
    var a, b := list.Before(g), list.Before(g + 1);
    StreamSlice(buffer, p, |data|, a, b);
    BitsOfSlice(data, a, b);
    var piece, o := list.Piece(data, g), list.Priority(data, g);
    if o.Done? {
      BitsOfParts(piece, o.n);
      BitsOfReverse(piece[o.n..]);
    } else {
      BitsOfReverse([]);
    }
    ReverseNothing();
  }

  lemma PieceSizes(list: Listing, data: Marks, g: nat)
    requires list.Legal() && g < list.Segments(|data|)
    ensures WellFormed(list.t) && list.Spectral() && g < |list.cbs| == |list.sps| && IsSpectral(list.cbs[g])
    ensures list.Before(g + 1) == list.Before(g) + SegWidth(list.cbs[g], list.longest) <= |data|
    ensures list.Piece(data, g) == data[list.Before(g)..list.Before(g + 1)]
    ensures list.Priority(data, g) == Decode(list.t, list.cbs[g], BitsOf(list.Piece(data, g)))
    ensures var o, s := list.Priority(data, g), list.Piece(data, g);
            && (o.Done? ==> o.n <= |s|)
            && list.Leftover(data, g) == Reverse(if o.Done? then s[o.n..] else [])
  {
    hide WellFormed, Decode;
    list.BeforeMono(g + 1, list.Segments(|data|));
  }

  lemma ReverseNothing()
    ensures Rev([]) == [] && BitsOf([]) == [] && Reverse([]) == []
  {
  }

  lemma StreamSlice(buffer: seq<Byte>, p: nat, n: nat, a: nat, b: nat)
    requires a <= b <= n
    ensures Stream(buffer, p, n)[a..b] == Stream(buffer, p + a, b - a)
  {
    forall j | 0 <= j < b - a ensures Stream(buffer, p, n)[a..b][j] == Stream(buffer, p + a, b - a)[j] {
      assert p + (a + j) == (p + a) + j;
    }
  }

  /** Step 1 up to the first codeword that has no segment of its own. */
  method ReadPriorities(ghost list: Listing, ghost data: Marks, t: Tables, cbs: seq<nat>, sps: seq<nat>, longest: nat,
                        spDataLen: nat, ld: BitFile, spectral: array<int>, segment: array<Register>)
    returns (numberOfSegments: nat, bitsread: nat)
    requires list == Listing(t, cbs, sps, longest) && list.Legal() && |cbs| <= 512 == segment.Length && longest > 0
    requires GoodPlan(Places(list), spectral.Length) && list.Segments(|data|) > 0 && RegistersHold(list, data)
    requires ld.Valid() && Defined(list, ld.bitsLeft) && spDataLen == |data| && BitsOf(data) == ld.Next(spDataLen)
    modifies ld, spectral, segment
    ensures numberOfSegments == list.Segments(|data|) && bitsread == list.Before(numberOfSegments)
    ensures ld.Valid() && ld.bitsLeft > 0 && ld.Pos() == old(ld.Pos()) + bitsread
    ensures Prepared(list, data, numberOfSegments, segment[..], spectral[..])
    ensures Frame(Places(list), old(spectral[..]), spectral[..])
  {
    hide *;
    ghost var p, was := ld.Pos(), spectral[..];
    numberOfSegments, bitsread := 0, 0;
    ld.NextStream(spDataLen);
    ListingIs(list);
    FirstSegment(list, |data|);
    NothingPrepared(list, data, segment[..], spectral[..]);
    FrameSelf(Places(list), spectral[..]);
    while numberOfSegments < |cbs| && bitsread + SegWidth(cbs[numberOfSegments], longest) <= spDataLen
      invariant numberOfSegments <= list.Segments(|data|) == list.SegmentsFrom(numberOfSegments, spDataLen) <= |cbs|
      invariant bitsread == list.Before(numberOfSegments) && ld.Valid() && ld.Pos() == p + bitsread
      invariant if numberOfSegments == 0 then Defined(list, ld.bitsLeft) else ld.bitsLeft > 0
      invariant Prepared(list, data, numberOfSegments, segment[..], spectral[..])
      invariant Frame(Places(list), was, spectral[..])
    {
      var g := numberOfSegments;
      NextSegment(list, g, spDataLen);
      if ld.bitsLeft == 0 {
        DefinedFirst(list, ld.bitsLeft);
      }
      var segwidth := SegWidth(cbs[g], longest);
      WidthPositive(cbs[g], longest);
      ghost var sp, segs := spectral[..], segment[..];
      PieceCarried(list, data, g, ld.buffer, p);
      ld.NextStream(segwidth);
      PriorityAt(list, data, g, spectral.Length);
      var r := DecodePriority(t, cbs[g], sps[g], segwidth, ld, spectral);
      segment[g] := r;
      PriorityGot(list, data, g, r, spectral[..]);
      PreparedNext(list, data, g, segs, r, sp, spectral[..]);
      assert segment[..] == segs[g := r];
      FrameVisit(Places(list), g, sp, spectral[..]);
      FrameTrans(Places(list), was, sp, spectral[..]);
      bitsread := bitsread + segwidth;
      numberOfSegments := numberOfSegments + 1;
    }
    NextSegment(list, numberOfSegments, spDataLen);
  }

  lemma ListingIs(list: Listing)
    requires list.Legal()
    ensures WellFormed(list.t) && |list.cbs| == |list.sps| && list.Spectral()
    ensures Places(list).t == list.t && Places(list).cbs == list.cbs && Places(list).sps == list.sps
    ensures forall i :: 0 <= i < |list.cbs| ==> IsSpectral(list.cbs[i])
  {
    hide WellFormed;
  }

  lemma DefinedFirst(list: Listing, bitsLeft: nat)
    requires Defined(list, bitsLeft)
    ensures bitsLeft > 0 || (list.cbs != [] && IsSpectral(list.cbs[0]) && SegWidth(list.cbs[0], list.longest) != 32)
  {
  }

  lemma WidthPositive(cb: nat, longest: nat)
    requires IsSpectral(cb) && longest > 0
    ensures 0 < SegWidth(cb, longest) <= 49
  {
  }

  lemma FirstSegment(list: Listing, len: nat)
    requires list.Spectral()
    ensures list.Segments(len) == list.SegmentsFrom(0, len) <= |list.cbs| && list.Before(0) == 0
  {
  }

  lemma NextSegment(list: Listing, g: nat, len: nat)
    requires list.Spectral() && g <= |list.cbs| && g <= list.Segments(len) == list.SegmentsFrom(g, len)
    ensures if g < |list.cbs| && list.Before(g) + SegWidth(list.cbs[g], list.longest) <= len
            then g < list.Segments(len) == list.SegmentsFrom(g + 1, len)
                 && list.Before(g + 1) == list.Before(g) + SegWidth(list.cbs[g], list.longest)
            else list.Segments(len) == g
  {
  }

  lemma PriorityAt(list: Listing, data: Marks, g: nat, n: nat)
    requires list.Legal() && list.Segments(|data|) > 0 && RegistersHold(list, data)
    requires GoodPlan(Places(list), n) && g < list.Segments(|data|)
    ensures !list.Priority(data, g).Wild? && g < |list.cbs| == |list.sps| && list.sps[g] + Width(list.cbs[g]) <= n
    ensures |list.StartSegment(data, g)| <= 63
  {
    hide WellFormed, Decode, SetsHold, Listing.StartSegment, Listing.Leftover, Listing.Priority, Listing.StepOne;
    assert PriorityHolds(list, data, g);
  }

  lemma PriorityGot(list: Listing, data: Marks, g: nat, r: Register, sp: seq<int>)
    requires list.Legal() && g < list.Segments(|data|) && g < |list.cbs| == |list.sps|
    requires r.Valid() && r.len <= 63 && r.Content() == BitsOf(list.Leftover(data, g))
    requires var o, at, n := list.Priority(data, g), list.sps[g], Width(list.cbs[g]);
             at + n <= |sp| && (o.Done? ==> sp[at..at + n] == o.vals)
    ensures SegmentHolds(list.Leftover(data, g), r) && Got(list, data, g, sp)
  {
    hide WellFormed, Decode, Register.Content, Listing.Leftover, Listing.Priority;
  }

  // ----- the bits behind the last segment

  ghost predicate Whole(list: Listing, data: Marks, segs: seq<Register>)
    requires list.Legal()
  {
    && list.Segments(|data|) <= |segs|
    && forall g :: 0 <= g < list.Segments(|data|) ==> SegmentHolds(list.StartSegment(data, g), segs[g])
  }

  /** The last segment after step 1. */
  method FinishSegments(ghost list: Listing, ghost data: Marks, ghost p: nat, ghost sp: seq<int>, numberOfCodewords: nat,
                        spDataLen: nat, numberOfSegments: nat, bitsread: nat, ld: BitFile, segment: array<Register>)
    requires list.Legal() && numberOfCodewords == |list.cbs| && spDataLen == |data|
    requires 0 < numberOfSegments == list.Segments(|data|) <= segment.Length && bitsread == list.Before(numberOfSegments)
    requires Prepared(list, data, numberOfSegments, segment[..], sp) && RegistersHold(list, data)
    requires ld.Valid() && ld.bitsLeft > 0 && ld.Pos() == p + bitsread && BitsOf(data) == Stream(ld.buffer, p, |data|)
    modifies ld, segment
    ensures Whole(list, data, segment[..])
  {
    hide *;
    ghost var segs := segment[..];
    ListingIs(list);
    FirstSegment(list, |data|);
    BehindLength(list, data);
    if numberOfSegments < numberOfCodewords && bitsread < spDataLen {
      var g := numberOfSegments - 1;
      PreparedAt(list, data, segs, sp, g);
      ld.NextStream(spDataLen - bitsread);
      BehindCarried(list, data, ld.buffer, p);
      var extra := ReadSegment(spDataLen - bitsread, ld);
      LastMerged(list, data, segment[g], extra);
      segment[g] := MergeLast(segment[g], extra);
      assert segment[..] == segs[g := segment[g]];
      WholeMerged(list, data, segs, sp, segment[g]);
    } else {
      WholeAlready(list, data, segs, sp);
    }
  }

  /** Fewer bits are left than the next codeword's segment would take. */
  lemma BehindLength(list: Listing, data: Marks)
    requires list.Legal()
    ensures var S := list.Segments(|data|);
            && list.Before(S) <= |data| && (S < |list.cbs| ==> |data| - list.Before(S) <= 49)
            && (list.Behind(data) == [] <==> S == |list.cbs| || list.Before(S) == |data|)
            && (S < |list.cbs| ==> |list.Behind(data)| == |data| - list.Before(S))
  {
    hide WellFormed;
  }

  lemma BehindCarried(list: Listing, data: Marks, buffer: seq<Byte>, p: nat)
    requires list.Legal() && BitsOf(data) == Stream(buffer, p, |data|) && list.Segments(|data|) < |list.cbs|
    ensures var at := list.Before(list.Segments(|data|));
            at <= |data| && BitsOf(list.Behind(data)) == Stream(buffer, p + at, |data| - at)
  {
    hide *;
    BehindLength(list, data);
    ListingIs(list);
    BehindIsTail(list, data);
    var at := list.Before(list.Segments(|data|));
    StreamSlice(buffer, p, |data|, at, |data|);
    BitsOfSlice(data, at, |data|);
  }

  lemma BehindIsTail(list: Listing, data: Marks)
    requires list.Legal() && list.Segments(|data|) < |list.cbs|
    ensures list.Before(list.Segments(|data|)) <= |data|
    ensures list.Behind(data) == data[list.Before(list.Segments(|data|))..|data|]
  {
    hide WellFormed;
  }

  lemma PreparedAt(list: Listing, data: Marks, segs: seq<Register>, sp: seq<int>, g: nat)
    requires list.Legal() && Prepared(list, data, list.Segments(|data|), segs, sp) && g < list.Segments(|data|)
    ensures g < |segs| && SegmentHolds(list.Leftover(data, g), segs[g])
  {
    hide SegmentHolds, Got, WellFormed;
  }

  /** Joining the bits behind the last whole segment. */
  lemma LastMerged(list: Listing, data: Marks, prev: Register, extra: Register)
    requires list.Legal() && list.Segments(|data|) > 0 && RegistersHold(list, data) && list.Behind(data) != []
    requires SegmentHolds(list.Leftover(data, list.Segments(|data|) - 1), prev)
    requires extra.Valid() && extra.Content() == BitsOf(list.Behind(data))
    requires forall k :: extra.len <= k < 64 ==> !extra.At(k)
    ensures prev.len + extra.len <= 63
    ensures SegmentHolds(list.StartSegment(data, list.Segments(|data|) - 1), MergeLast(prev, extra))
  {
    hide *;
    ListingIs(list);
    var g := list.Segments(|data|) - 1;
    FirstSegment(list, |data|);
    LastHolds(list, data, prev);
    NoBits(extra);
    MergeLastExact(prev, extra);
    MergeLastContent(prev, extra);
    var m := MergeLast(prev, extra);
    NoBits(m);
    BitsOfConcat(Reverse(list.Behind(data)), list.Leftover(data, g));
    BitsOfReverse(list.Behind(data));
    SegmentHoldsIs(list.StartSegment(data, g), m);
  }

  lemma LastHolds(list: Listing, data: Marks, prev: Register)
    requires list.Legal() && list.Segments(|data|) > 0 && RegistersHold(list, data) && list.Behind(data) != []
    requires SegmentHolds(list.Leftover(data, list.Segments(|data|) - 1), prev)
    ensures var S := list.Segments(|data|); var left := list.Leftover(data, S - 1); var c := BitsOf(left);
            && prev.Valid() && prev.Content() == c && prev.len == |c|
            && (|c| > 32 ==> c[|c| - 32..] == c[..32])
            && list.StartSegment(data, S - 1) == Reverse(list.Behind(data)) + left
            && |list.StartSegment(data, S - 1)| == |list.Behind(data)| + |left| <= 63
  {
    hide WellFormed, Decode, SetsHold, Listing.Leftover, Listing.Priority, Listing.StepOne, Listing.Behind, Register.Content;
    NoBits(prev);
    assert PriorityHolds(list, data, list.Segments(|data|) - 1);
  }

  lemma SegmentHoldsIs(s: Marks, r: Register)
    requires r.Valid() && r.len <= 63 && r.Content() == BitsOf(s)
    ensures SegmentHolds(s, r)
  {
  }

  lemma StartIsLeftover(list: Listing, data: Marks, g: nat)
    requires list.Legal() && g < list.Segments(|data|)
    requires g < list.Segments(|data|) - 1 || list.Behind(data) == []
    ensures list.StartSegment(data, g) == list.Leftover(data, g)
  {
    hide WellFormed, Decode, Listing.Leftover, Listing.Behind;
    assert Reverse([]) == [];
    assert [] + list.Leftover(data, g) == list.Leftover(data, g);
  }

  lemma WholeMerged(list: Listing, data: Marks, segs: seq<Register>, sp: seq<int>, r: Register)
    requires list.Legal() && 0 < list.Segments(|data|) && Prepared(list, data, list.Segments(|data|), segs, sp)
    requires SegmentHolds(list.StartSegment(data, list.Segments(|data|) - 1), r) && list.Segments(|data|) <= |segs|
    ensures Whole(list, data, segs[list.Segments(|data|) - 1 := r])
  {
    hide SegmentHolds, WellFormed, Prepared, Listing.StartSegment, Listing.Leftover, Listing.Segments;
    var segs' := segs[list.Segments(|data|) - 1 := r];
    forall g | 0 <= g < list.Segments(|data|) ensures SegmentHolds(list.StartSegment(data, g), segs'[g]) {
      if g < list.Segments(|data|) - 1 {
        StartIsLeftover(list, data, g);
        PreparedAt(list, data, segs, sp, g);
      }
    }
  }

  lemma WholeAlready(list: Listing, data: Marks, segs: seq<Register>, sp: seq<int>)
    requires list.Legal() && Prepared(list, data, list.Segments(|data|), segs, sp) && list.Behind(data) == []
    requires list.Segments(|data|) <= |segs|
    ensures Whole(list, data, segs)
  {
    hide SegmentHolds, WellFormed, Prepared, Listing.StartSegment, Listing.Leftover, Listing.Segments;
    forall g | 0 <= g < list.Segments(|data|) ensures SegmentHolds(list.StartSegment(data, g), segs[g]) {
      StartIsLeftover(list, data, g);
      PreparedAt(list, data, segs, sp, g);
    }
  }

  // ----- from step 1 to step 2

  ghost predicate Listed(cbs: seq<nat>, sps: seq<nat>, S: nat, cws: seq<Codeword>) {
    && S <= |cbs| == |sps| && |cbs| - S <= |cws|
    && forall k :: 0 <= k < |cbs| - S ==>
         && cws[k].cb == cbs[S + k] && cws[k].spOffset == sps[S + k] && !cws[k].decoded
         && cws[k].bits.Valid() && cws[k].bits.len == 0
  }

  /** The list of codewords that have no segment of their own (`fill_in_codeword`). */
  method ListCodewords(cbs: seq<nat>, sps: seq<nat>, S: nat) returns (codeword: array<Codeword>)
    requires S <= |cbs| == |sps| <= 512
    ensures fresh(codeword) && codeword.Length == 512
    ensures Listed(cbs, sps, S, codeword[..])
  {
    codeword := new Codeword[512](_ => Codeword(0, false, 0, Register(0, 0, 0)));
    for i := S to |cbs|
      invariant forall k :: 0 <= k < 512 ==> codeword[k].bits.Valid() && codeword[k].bits.len == 0
      invariant forall k :: 0 <= k < i - S ==>
                  codeword[k].cb == cbs[S + k] && codeword[k].spOffset == sps[S + k] && !codeword[k].decoded
    {
      codeword[i - S] := Codeword(cbs[i], false, sps[i], codeword[i - S].bits.(len := 0));
    }
  }

  /** The codewords that are not priority codewords. */
  function Others(list: Listing, S: nat): Plan
    requires S <= |list.cbs| && S <= |list.sps|
  {
    Plan(list.t, list.cbs[S..], list.sps[S..])
  }

  /** Step 2 starts from what step 1 leaves. */
  lemma StepsMeet(list: Listing, data: Marks, segs: seq<Register>, cws: seq<Codeword>, sp: seq<int>)
    requires list.Legal() && list.Segments(|data|) > 0 && GoodPlan(Places(list), |sp|)
    requires |segs| == list.Segments(|data|) && Whole(list, data, segs) && Listed(list.cbs, list.sps, list.Segments(|data|), cws)
    ensures list.Segments(|data|) <= |list.cbs| == |list.sps|
    ensures Holds(Others(list, list.Segments(|data|)), list.StepOne(data), segs, cws, sp)
  {
    hide SegmentHolds, WellFormed, Decode, Listing.StartSegment, Register.Content;
    var p, d, S := Others(list, list.Segments(|data|)), list.StepOne(data), list.Segments(|data|);
    OthersGood(list, S, |sp|);
    forall k | 0 <= k < |d.done| ensures RecordHolds(p.cbs[k], p.sps[k], d.done[k], d.stash[k], cws[k]) {
      NoBits(cws[k].bits);
    }
    forall g | 0 <= g < |segs| ensures SegmentHolds(d.segs[g], segs[g]) {
      assert SegmentHolds(list.StartSegment(data, g), segs[g]);
    }
  }

  lemma OthersGood(list: Listing, S: nat, n: nat)
    requires GoodPlan(Places(list), n) && S <= |list.cbs|
    ensures |list.cbs| == |list.sps| && GoodPlan(Others(list, S), n)
  {
    hide WellFormed;
    var p := Others(list, S);
    forall i, j | 0 <= i < j < |p.cbs| ensures Apart(p.sps[i], Width(p.cbs[i]), p.sps[j], Width(p.cbs[j])) {
      assert Apart(list.sps[S + i], Width(list.cbs[S + i]), list.sps[S + j], Width(list.cbs[S + j]));
    }
    forall i | 0 <= i < |p.cbs| ensures IsSpectral(p.cbs[i]) && p.sps[i] + Width(p.cbs[i]) <= n {
      assert IsSpectral(Places(list).cbs[S + i]);
    }
  }

  // ----- the end

  /** If codeword i is decoded in the end, its values are in their place. */
  ghost predicate Placed(list: Listing, data: Marks, i: nat, sp: seq<int>)
    requires list.Legal() && list.Segments(|data|) > 0 && i < |list.cbs|
  {
    var o, at, n := list.Result(data, i), list.sps[i], Width(list.cbs[i]);
    at + n <= |sp| && (o.Done? ==> sp[at..at + n] == o.vals)
  }

  /** Step 2 leaves the priority codewords' values alone and puts all others in place. */
  lemma AllPlaced(list: Listing, data: Marks, segs: seq<Register>, sp: seq<int>,
                  segs': seq<Register>, cws: seq<Codeword>, sp': seq<int>)
    requires list.Legal() && list.Segments(|data|) > 0 && GoodPlan(Places(list), |sp|)
    requires list.Segments(|data|) <= |list.cbs| == |list.sps|
    requires Prepared(list, data, list.Segments(|data|), segs, sp)
    requires Frame(Others(list, list.Segments(|data|)), sp, sp')
    requires Holds(Others(list, list.Segments(|data|)), list.StepTwo(data), segs', cws, sp')
    ensures forall i :: 0 <= i < |list.cbs| ==> Placed(list, data, i, sp')
  {
    hide *;
    ListingIs(list);
    FirstSegment(list, |data|);
    FrameSize(Others(list, list.Segments(|data|)), sp, sp');
    forall i | 0 <= i < |list.cbs| ensures Placed(list, data, i, sp') {
      if i < list.Segments(|data|) {
        PriorityKept(list, data, i, segs, sp, sp');
      } else {
        OtherPlaced(list, data, i, segs', cws, sp');
      }
    }
  }

  lemma FrameSize(p: Plan, sp: seq<int>, sp': seq<int>)
    requires Frame(p, sp, sp')
    ensures |sp'| == |sp|
  {
  }

  lemma PriorityKept(list: Listing, data: Marks, i: nat, segs: seq<Register>, sp: seq<int>, sp': seq<int>)
    requires list.Legal() && GoodPlan(Places(list), |sp|) && i < list.Segments(|data|) <= |list.cbs| == |list.sps|
    requires Prepared(list, data, list.Segments(|data|), segs, sp) && Frame(Others(list, list.Segments(|data|)), sp, sp')
    ensures Placed(list, data, i, sp')
  {
    hide Decode, WellFormed, Listing.Segments, Listing.Priority, Listing.StepTwo, SegmentHolds;
    var S := list.Segments(|data|);
    var p, b, m := Others(list, S), list.sps[i], Width(list.cbs[i]);
    assert Got(list, data, i, sp);
    forall j | 0 <= j < |p.sps| ensures Apart(p.sps[j], Width(p.cbs[j]), b, m) {
      assert Apart(list.sps[i], Width(list.cbs[i]), list.sps[S + j], Width(list.cbs[S + j]));
    }
    assert ClearOf(p, b, m);
  }

  lemma OtherPlaced(list: Listing, data: Marks, i: nat, segs: seq<Register>, cws: seq<Codeword>, sp: seq<int>)
    requires list.Legal() && 0 < list.Segments(|data|) <= i < |list.cbs| == |list.sps| && GoodPlan(Places(list), |sp|)
    requires Holds(Others(list, list.Segments(|data|)), list.StepTwo(data), segs, cws, sp)
    ensures Placed(list, data, i, sp)
  {
    hide Decode, WellFormed, Listing.Segments, Listing.Priority, Listing.StepTwo, SegmentsHold, RecordsHold, IsCodeword;
    var S := list.Segments(|data|);
    var p, d := Others(list, S), list.StepTwo(data);
    assert IsSpectral(Places(list).cbs[i]);
    if d.done[i - S] {
      assert ValuesAt(p.t, p.cbs[i - S], BitsOf(d.used[i - S]), p.sps[i - S], sp);
    }
  }

  /** A line that belongs to no codeword of a part of the list belongs to none of the list. */
  lemma FrameOthers(list: Listing, S: nat, sp: seq<int>, sp': seq<int>)
    requires S <= |list.cbs| == |list.sps| && Frame(Others(list, S), sp, sp')
    ensures Frame(Places(list), sp, sp')
  {
    var p, q := Places(list), Others(list, S);
    forall b: nat, m: nat | b + m <= |sp| && ClearOf(p, b, m) ensures sp'[b..b + m] == sp[b..b + m] {
      forall i | 0 <= i < |q.sps| ensures Apart(q.sps[i], Width(q.cbs[i]), b, m) {
        assert Apart(p.sps[S + i], Width(p.cbs[S + i]), b, m);
      }
      assert ClearOf(q, b, m);
    }
  }

  /**
    `reordered_spectral_data` on the pre-sorted list of codewords. Whatever the data, every
    codeword that the decoder on lists decodes ends up decoded at its place in the spectrum,
    and no line outside these places changes.
   */
  method ReorderedSpectralData(t: Tables, cbs: seq<nat>, sps: seq<nat>, longest: nat, spDataLen: nat,
                               ld: BitFile, spectral: array<int>, ghost data: Marks)
    returns (err: nat)
    requires var list := Listing(t, cbs, sps, longest);
             list.Legal() && |cbs| <= 512 && GoodPlan(Places(list), spectral.Length)
    requires cbs != [] && 0 < longest <= spDataLen ==>
               var list := Listing(t, cbs, sps, longest);
               && ld.Valid() && |data| == spDataLen && BitsOf(data) == ld.Next(spDataLen) && Defined(list, ld.bitsLeft)
               && RegistersHold(list, data)
    modifies ld, spectral
    ensures spDataLen == 0 ==> err == 0
    ensures 0 < spDataLen && (cbs == [] || longest == 0 || spDataLen < longest) ==> err == 10
    ensures spDataLen < longest || longest == 0 || cbs == [] ==> spectral[..] == old(spectral[..])
    ensures cbs != [] && 0 < longest <= spDataLen ==>
              var list := Listing(t, cbs, sps, longest);
              && err == 0 && Frame(Places(list), old(spectral[..]), spectral[..])
              && list.Segments(|data|) > 0 && forall i :: 0 <= i < |cbs| ==> Placed(list, data, i, spectral[..])
  {
    if spDataLen == 0 {
      return 0;
    }
    if longest == 0 {
      return 10;
    }
    if spDataLen < longest {
      return 10;
    }
    if cbs == [] {
      return 10;  // no codeword, hence no segment
    }
    SomeSegment(Listing(t, cbs, sps, longest), spDataLen);
    Reorder(t, cbs, sps, longest, spDataLen, ld, spectral, data);
    return 0;
  }

  /** A longest codeword that the data can hold makes at least one segment. */
  lemma SomeSegment(list: Listing, len: nat)
    requires list.Spectral() && list.cbs != [] && list.longest <= len
    ensures list.Segments(len) > 0
  {
    assert list.Before(1) == list.Before(0) + SegWidth(list.cbs[0], list.longest);
  }

  method Reorder(t: Tables, cbs: seq<nat>, sps: seq<nat>, longest: nat, spDataLen: nat,
                 ld: BitFile, spectral: array<int>, ghost data: Marks)
    requires var list := Listing(t, cbs, sps, longest);
             && list.Legal() && |cbs| <= 512 && longest > 0 && GoodPlan(Places(list), spectral.Length)
             && ld.Valid() && |data| == spDataLen && BitsOf(data) == ld.Next(spDataLen) && Defined(list, ld.bitsLeft)
             && list.Segments(|data|) > 0 && RegistersHold(list, data)
    modifies ld, spectral
    ensures var list := Listing(t, cbs, sps, longest);
            && Frame(Places(list), old(spectral[..]), spectral[..])
            && forall i :: 0 <= i < |cbs| ==> Placed(list, data, i, spectral[..])
  {
    hide *;
    ghost var list := Listing(t, cbs, sps, longest);
    ghost var p, was := ld.Pos(), spectral[..];
    ListingIs(list);
    FirstSegment(list, |data|);
    var segment := new Register[512];
    ld.NextStream(spDataLen);
    var numberOfSegments, bitsread := ReadPriorities(list, data, t, cbs, sps, longest, spDataLen, ld, spectral, segment);
    ghost var sp, segs := spectral[..], segment[..];
    FinishSegments(list, data, p, sp, |cbs|, spDataLen, numberOfSegments, bitsread, ld, segment);
    WholePrefix(list, data, segment[..]);
    var codeword := ListCodewords(cbs, sps, numberOfSegments);
    StepsMeet(list, data, segment[..numberOfSegments], codeword[..], sp);
    SetsReady(list, data);
    ghost var d := DecodeNonPriority(Others(list, numberOfSegments), t, segment, codeword, numberOfSegments, |cbs|,
                                     spectral, list.StepOne(data));
    AllPlaced(list, data, segs, sp, segment[..numberOfSegments], codeword[..], spectral[..]);
    FrameOthers(list, numberOfSegments, sp, spectral[..]);
    FrameTrans(Places(list), was, sp, spectral[..]);
  }

  lemma WholePrefix(list: Listing, data: Marks, segs: seq<Register>)
    requires list.Legal() && Whole(list, data, segs)
    ensures list.Segments(|data|) <= |segs| && Whole(list, data, segs[..list.Segments(|data|)])
  {
    hide SegmentHolds, WellFormed, Listing.StartSegment;
  }

  lemma SetsReady(list: Listing, data: Marks)
    requires list.Legal() && list.Segments(|data|) > 0 && RegistersHold(list, data)
    ensures var S := list.Segments(|data|); var d := list.StepOne(data); var p := Others(list, S);
            && S <= |list.cbs| == |list.sps| && d.Valid() && WellFormed(list.t)
            && p.t == list.t && p.cbs == list.cbs[S..] && |p.cbs| == |d.done| == |list.cbs| - S && |d.segs| == S
            && SetsHold(list.t, p.cbs, d, 1, Sets(|list.cbs|, S))
            && list.StepTwo(data) == AfterSets(DecodedLength(list.t), p.cbs, d, 1, Sets(|list.cbs|, S))
  {
    hide WellFormed, Decode, SetsHold, AfterSets, DecodedLength, Sets, Listing.StepOne, PriorityHolds;
  }
}
