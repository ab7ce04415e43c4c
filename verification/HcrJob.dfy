/**
  * What an encoder sends, after section 8.5.3.3: the segments of a frame, one after another,
  * and that the decoder on lists gets every codeword back.
  */
module HcrJob {
  import opened Words
  import opened Codewords
  import opened HcrSchedule
  import opened Hcr
  import opened HcrConservation
  import opened HcrRoundTrip
  import opened HcrLists

  /** A segment of the given size with its priority codeword written. */
  function NewSlot(w: Bits, size: nat): (sl: Slot)
    requires |w| <= size
    ensures sl.Valid() && sl.lo == |w| && sl.hi == |sl.buf| == size && sl.buf[..|w|] == w
  {
    Slot(w + Zeros(size - |w|), |w|, size)
  }

  /** The codewords of a frame in pre-sorted order, and the length of its spectral data. */
  datatype Job = Job(list: Listing, words: seq<Bits>, len: nat) {

    ghost predicate Legal() {
      list.Legal() && |words| == |list.cbs|
    }

    function Segments(): (n: nat)
      requires list.Spectral()
      ensures n <= |list.cbs| && list.Before(n) <= len
    {
      list.Segments(len)
    }

    /** The last segment also takes the bits that make up no whole segment. */
    function SlotSize(g: nat): nat
      requires list.Spectral() && g < Segments()
    {
      SegWidth(list.cbs[g], list.longest)
      + (if g == Segments() - 1 && Segments() < |list.cbs| then len - list.Before(Segments()) else 0)
    }

    /** Priority codewords fit at the start of their segments. */
    ghost predicate PrioritiesFit()
      requires Legal()
    {
      forall g :: 0 <= g < Segments() ==> |words[g]| <= SegWidth(list.cbs[g], list.longest)
    }

    /** The segments with the priority codewords written; everything else is still to come. */
    ghost function Layout(): (st: State)
      requires Legal() && Segments() > 0 && PrioritiesFit()
      ensures st.Valid() && |st.slots| == Segments()
    {
      State(seq(Segments(), g requires 0 <= g < Segments() => NewSlot(words[g], SlotSize(g))),
            words[Segments()..])
    }

    ghost function Encoded(): (st: State)
      requires Legal() && Segments() > 0 && PrioritiesFit()
      ensures |st.slots| == Segments()
    {
      RunSets(Layout(), 1, Sets(|list.cbs|, Segments()))
    }

    /** All words are codewords, and everything fits; no length is bounded otherwise. */
    ghost predicate FrameFits() {
      && Legal() && 0 < Segments() && PrioritiesFit()
      && AllCodewords(list.t, list.cbs, words) && Fits(Layout())
    }

    /** The data is the segments, one after another. */
    ghost predicate CarriedBy(data: Bits)
      requires Legal() && Segments() > 0 && PrioritiesFit()
    {
      |data| == len && forall g :: 0 <= g < Segments() ==> CarriesSlot(data, g)
    }

    ghost predicate CarriesSlot(data: Bits, g: nat)
      requires Legal() && Segments() > 0 && PrioritiesFit() && g < Segments()
    {
      && list.Before(g) + SlotSize(g) <= |data|
      && data[list.Before(g)..list.Before(g) + SlotSize(g)] == Encoded().slots[g].buf
    }
  }

  lemma LayoutExtends(job: Job)
    requires job.Legal() && job.Segments() > 0 && job.PrioritiesFit()
    ensures Extends(job.Layout(), job.Encoded())
  {
    hide RunSets, Extends;
    RunSetsExtends(job.Layout(), 1, Sets(|job.list.cbs|, job.Segments()));
  }

  lemma SlotKeeps(a: Slot, b: Slot, w: Bits)
    requires SlotExtends(a, b) && a.lo == |w| && |w| <= |a.buf| && a.buf[..|w|] == w
    ensures |b.buf| == |a.buf| && b.buf[..|w|] == w
  {
    forall j | 0 <= j < |w| ensures b.buf[j] == w[j] {
      assert a.buf[..|w|][j] == w[j];
    }
  }

  /** Segment g as the encoder leaves it starts with its priority codeword. */
  lemma PriorityStays(job: Job, g: nat)
    requires job.Legal() && job.Segments() > 0 && job.PrioritiesFit() && g < job.Segments()
    ensures var buf := job.Encoded().slots[g].buf;
            |buf| == job.SlotSize(g) && |job.words[g]| <= |buf| && buf[..|job.words[g]|] == job.words[g]
  {
    var w := job.words[g];
    hide RunSets, SlotExtends, Job.Legal, Job.Encoded;
    LayoutExtends(job);
    var a, b := job.Layout().slots[g], job.Encoded().slots[g];
    assert SlotExtends(a, b);
    assert a.buf[..|w|] == w;
    SlotKeeps(a, b, w);
  }

  // ----- step 1 of the decoder

  /** The sizes of segment g. */
  lemma SizesAt(job: Job, g: nat)
    requires job.Legal() && job.Segments() > 0 && job.PrioritiesFit() && g < job.Segments()
    ensures var W := SegWidth(job.list.cbs[g], job.list.longest);
            && |job.words[g]| <= W <= job.SlotSize(g) && IsSpectral(job.list.cbs[g]) && job.list.Spectral()
            && job.list.Before(g + 1) == job.list.Before(g) + W
            && (g == job.Segments() - 1 && job.Segments() < |job.list.cbs| ==>
                  job.SlotSize(g) == W + (job.len - job.list.Before(job.Segments())))
            && (g < job.Segments() - 1 || job.Segments() == |job.list.cbs| ==> job.SlotSize(g) == W)
  {
    hide WellFormed;
  }

  lemma CarriedAt(job: Job, data: Bits, g: nat)
    requires job.Legal() && job.Segments() > 0 && job.PrioritiesFit() && job.CarriedBy(data) && g < job.Segments()
    ensures |data| == job.len && job.CarriesSlot(data, g)
  {
    hide WellFormed, Job.CarriesSlot;
  }

  /** The front and the rest of segment g. */
  lemma SlotParts(job: Job, data: Bits, g: nat)
    requires job.Legal() && job.Segments() > 0 && job.PrioritiesFit() && job.CarriedBy(data) && g < job.Segments()
    ensures var W, at, buf := SegWidth(job.list.cbs[g], job.list.longest), job.list.Before(g), job.Encoded().slots[g].buf;
            && |job.words[g]| <= W <= |buf| == job.SlotSize(g) && at + |buf| <= |data| == job.len
            && buf[..|job.words[g]|] == job.words[g] && data[at..at + W] == buf[..W] && data[at + W..at + |buf|] == buf[W..]
  {
    hide *;
    SizesAt(job, g);
    PriorityStays(job, g);
    CarriedAt(job, data, g);
    SlotIs(job, data, g);
    Pieces(data, job.list.Before(g), SegWidth(job.list.cbs[g], job.list.longest), job.Encoded().slots[g].buf);
  }

  lemma SlotIs(job: Job, data: Bits, g: nat)
    requires job.Legal() && job.Segments() > 0 && job.PrioritiesFit() && g < job.Segments() && job.CarriesSlot(data, g)
    ensures job.list.Before(g) + job.SlotSize(g) <= |data|
    ensures data[job.list.Before(g)..job.list.Before(g) + job.SlotSize(g)] == job.Encoded().slots[g].buf
  {
  }

  lemma Pieces(data: Bits, at: nat, W: nat, buf: Bits)
    requires W <= |buf| && at + |buf| <= |data| && data[at..at + |buf|] == buf
    ensures data[at..at + W] == buf[..W] && data[at + W..at + |buf|] == buf[W..]
  {
  }

  /** The priority codeword is found at the front of its segment, and the rest of the segment is left. */
  lemma PriorityIs(job: Job, data: Marks, g: nat)
    requires job.FrameFits() && job.Legal() && job.Segments() > 0 && job.PrioritiesFit()
    requires job.CarriedBy(BitsOf(data)) && g < job.Segments() && |data| == job.len
    ensures job.list.Priority(data, g) == Decode(job.list.t, job.list.cbs[g], job.words[g])
    ensures IsCodeword(job.list.t, job.list.cbs[g], job.words[g])
    ensures var W, buf := SegWidth(job.list.cbs[g], job.list.longest), job.Encoded().slots[g].buf;
            && |job.words[g]| <= W <= |buf|
            && BitsOf(job.list.Leftover(data, g)) == Rev(buf[|job.words[g]|..W])
  {
    hide *;
    FrameParts(job);
    CodewordAt(job, g);
    SlotParts(job, BitsOf(data), g);
    SizesAt(job, g);
    var w, W, buf := job.words[g], SegWidth(job.list.cbs[g], job.list.longest), job.Encoded().slots[g].buf;
    PieceIs(job.list, data, g);
    BitsOfSlice(data, job.list.Before(g), job.list.Before(g + 1));
    assert buf[..W] == w + buf[|w|..W];
    CodewordDecodes(job.list.t, job.list.cbs[g], w, buf[|w|..W]);
    BitsOfParts(job.list.Piece(data, g), |w|);
    BitsOfReverse(job.list.Piece(data, g)[|w|..]);
    assert buf[..W][|w|..] == buf[|w|..W];
  }

  lemma CodewordAt(job: Job, g: nat)
    requires job.FrameFits() && g < |job.words|
    ensures job.Legal() && job.list.Legal() && |job.words| == |job.list.cbs| && WellFormed(job.list.t)
    ensures IsSpectral(job.list.cbs[g]) && IsCodeword(job.list.t, job.list.cbs[g], job.words[g])
    ensures Decode(job.list.t, job.list.cbs[g], job.words[g]).Done?
    ensures Decode(job.list.t, job.list.cbs[g], job.words[g]).n == |job.words[g]|
  {
    hide Fits, WellFormed, Decode;
  }

  lemma PieceIs(list: Listing, data: Marks, g: nat)
    requires list.Legal() && list.Spectral() && g < list.Segments(|data|)
    ensures list.Before(g) <= list.Before(g + 1) <= |data| && list.Piece(data, g) == data[list.Before(g)..list.Before(g + 1)]
    ensures list.Priority(data, g) == Decode(list.t, list.cbs[g], BitsOf(list.Piece(data, g)))
    ensures var o := list.Priority(data, g);
            && (o.Done? ==> o.n <= |list.Piece(data, g)| && list.Leftover(data, g) == Reverse(list.Piece(data, g)[o.n..]))
            && (!o.Done? ==> list.Leftover(data, g) == [])
  {
    hide WellFormed, Decode;
    list.BeforeMono(g + 1, list.Segments(|data|));
  }

  /** When step 2 starts, segment g is all that the encoder wrote behind the priority codeword, turned round. */
  lemma StartIs(job: Job, data: Marks, g: nat)
    requires job.FrameFits() && job.Legal() && job.Segments() > 0 && job.PrioritiesFit()
    requires job.CarriedBy(BitsOf(data)) && g < job.Segments() && |data| == job.len
    ensures var buf := job.Encoded().slots[g].buf;
            |job.words[g]| <= |buf| && BitsOf(job.list.StartSegment(data, g)) == Rev(buf[|job.words[g]|..])
  {
    hide *;
    FrameParts(job);
    CodewordAt(job, g);
    PriorityIs(job, data, g);
    SlotParts(job, BitsOf(data), g);
    SizesAt(job, g);
    var w, W, buf := job.words[g], SegWidth(job.list.cbs[g], job.list.longest), job.Encoded().slots[g].buf;
    BehindIs(job.list, data, g);
    var behind := if g == job.Segments() - 1 then job.list.Behind(data) else [];
    BehindBits(job, data, g);
    BitsOfReverse(behind);
    BitsOfConcat(Reverse(behind), job.list.Leftover(data, g));
    RevConcat(buf[|w|..W], buf[W..]);
    assert buf[|w|..W] + buf[W..] == buf[|w|..];
  }

  lemma BehindIs(list: Listing, data: Marks, g: nat)
    requires list.Legal() && list.Spectral() && g < list.Segments(|data|)
    ensures var behind := if g == list.Segments(|data|) - 1 then list.Behind(data) else [];
            list.StartSegment(data, g) == Reverse(behind) + list.Leftover(data, g)
  {
    hide WellFormed, Decode;
    assert Reverse([]) == [];
  }

  lemma BehindBits(job: Job, data: Marks, g: nat)
    requires job.Legal() && job.Segments() > 0 && job.PrioritiesFit()
    requires job.CarriedBy(BitsOf(data)) && g < job.Segments() && |data| == job.len
    ensures var W, buf := SegWidth(job.list.cbs[g], job.list.longest), job.Encoded().slots[g].buf;
            var behind := if g == job.Segments() - 1 then job.list.Behind(data) else [];
            W <= |buf| && BitsOf(behind) == buf[W..]
  {
    hide *;
    SlotParts(job, BitsOf(data), g);
    SizesAt(job, g);
    SegmentsAre(job, data);
    BehindCases(job.list, data, g);
    if g == job.Segments() - 1 && job.Segments() < |job.list.cbs| {
      BitsOfSlice(data, job.list.Before(g + 1), |data|);
    }
  }

  lemma SegmentsAre(job: Job, data: Marks)
    requires job.list.Spectral() && |data| == job.len
    ensures job.Segments() == job.list.Segments(|data|) <= |job.list.cbs|
  {
  }

  lemma BehindCases(list: Listing, data: Marks, g: nat)
    requires list.Spectral() && g < list.Segments(|data|)
    ensures list.Before(g + 1) <= |data|
    ensures var S := list.Segments(|data|); var behind := if g == S - 1 then list.Behind(data) else [];
            behind == if g == S - 1 && S < |list.cbs| then data[list.Before(g + 1)..|data|] else []
  {
    list.BeforeMono(g + 1, list.Segments(|data|));
    hide Listing.Before, Listing.SegmentsFrom;
  }

  lemma RevConcat(a: Bits, b: Bits)
    ensures Rev(a + b) == Rev(b) + Rev(a)
  {
  }

  /** After step 1 the decoder has before it what the encoder left behind. */
  lemma StepOneReceives(job: Job, data: Marks)
    requires job.FrameFits() && job.Legal() && job.Segments() > 0 && job.PrioritiesFit()
    requires job.CarriedBy(BitsOf(data)) && |data| == job.len
    ensures Received(job.list.StepOne(data), job.Layout(), job.Encoded())
  {
    hide Job.FrameFits, Job.CarriedBy, WellFormed, Job.Encoded, AllCodewords, SegmentMatches, Listing.StartSegment;
    LayoutExtends(job);
    var d, st, fin := job.list.StepOne(data), job.Layout(), job.Encoded();
    forall g | 0 <= g < |d.segs| ensures SegmentMatches(d, st, fin, true, g) {
      StartIs(job, data, g);
      SlotBounds(job, g);
      SegmentIs(d, st, fin, g);
    }
  }

  lemma SlotBounds(job: Job, g: nat)
    requires job.Legal() && job.Segments() > 0 && job.PrioritiesFit() && g < job.Segments()
    ensures job.Layout().slots[g].lo == |job.words[g]| <= job.Layout().slots[g].hi == |job.Encoded().slots[g].buf|
  {
    hide WellFormed, Job.Encoded;
    PriorityStays(job, g);
  }

  lemma SegmentIs(d: Desk, st: State, fin: State, g: nat)
    requires g < |d.segs| && g < |st.slots| && g < |fin.slots|
    requires st.slots[g].lo <= st.slots[g].hi == |fin.slots[g].buf|
    requires BitsOf(d.segs[g]) == Rev(fin.slots[g].buf[st.slots[g].lo..])
    ensures SegmentMatches(d, st, fin, true, g)
  {
    var buf := fin.slots[g].buf;
    assert buf[st.slots[g].lo..] == buf[st.slots[g].lo..st.slots[g].hi];
  }

  // ----- the whole frame

  lemma OthersAreCodewords(job: Job)
    requires job.FrameFits() && job.Legal() && job.Segments() > 0 && job.PrioritiesFit()
    ensures AllCodewords(job.list.t, job.list.cbs[job.Segments()..], job.Layout().rem)
    ensures Fits(job.Layout()) && WellFormed(job.list.t) && |job.Layout().rem| == |job.list.cbs| - job.Segments()
    ensures job.Layout().rem == job.words[job.Segments()..]
  {
    hide Decode, WellFormed, Fits, IsCodeword;
    var S := job.Segments();
    forall k | 0 <= k < |job.words| - S ensures IsCodeword(job.list.t, job.list.cbs[S..][k], job.words[S..][k]) {
      assert IsCodeword(job.list.t, job.list.cbs[S + k], job.words[S + k]);
    }
  }

  lemma FrameParts(job: Job)
    requires job.FrameFits()
    ensures job.Legal() && job.list.Legal() && job.list.Spectral() && 0 < job.Segments() && job.PrioritiesFit()
    ensures |job.words| == |job.list.cbs| && job.Segments() == job.list.Segments(job.len)
  {
    hide Fits, WellFormed, AllCodewords;
  }

  /** What step 2 makes of the codewords behind the priority codewords. */
  lemma OtherDecodes(job: Job, data: Marks, k: nat)
    requires job.FrameFits() && job.Legal() && job.Segments() > 0 && job.PrioritiesFit()
    requires job.CarriedBy(BitsOf(data)) && |data| == job.len && k < |job.list.cbs| - job.Segments()
    ensures job.Segments() == job.list.Segments(|data|) && |job.words| == |job.list.cbs|
    ensures var d := job.list.StepTwo(data); d.done[k] && BitsOf(d.used[k]) == job.words[job.Segments() + k]
  {
    hide *;
    FrameParts(job);
    var S := job.Segments();
    StepOneReceives(job, data);
    OthersAreCodewords(job);
    EncodedIs(job);
    RoundTrip(job.list.t, job.list.cbs[S..], job.list.StepOne(data), job.Layout(), k);
    StepTwoIs(job.list, data);
  }

  lemma EncodedIs(job: Job)
    requires job.Legal() && job.Segments() > 0 && job.PrioritiesFit()
    ensures var st := job.Layout();
            && |st.slots| == job.Segments() && |st.rem| == |job.words| - job.Segments() && st.Valid()
            && job.Encoded() == RunSets(st, 1, Sets(|st.slots| + |st.rem|, |st.slots|))
  {
    hide RunSets, WellFormed, Sets;
  }

  lemma StepTwoIs(list: Listing, data: Marks)
    requires list.Legal() && list.Spectral() && list.Segments(|data|) > 0
    ensures var S := list.Segments(|data|); var d := list.StepOne(data);
            && S <= |list.cbs| && d.Valid() && |d.segs| == S && |d.done| == |list.cbs| - S && |list.cbs[S..]| == |list.cbs| - S
            && list.StepTwo(data) == AfterSets(DecodedLength(list.t), list.cbs[S..], d, 1, Sets(|list.cbs|, S))
            && |list.StepTwo(data).used| == |list.cbs| - S
  {
    hide WellFormed, AfterSets, DecodedLength, Sets, Listing.StepOne;
  }

  /**
    * A whole frame, from its bits on: every codeword, priority or not, is decoded from
    * exactly its own bits. Nothing is asked of any length but that all fits.
    */
  lemma FrameRoundTrip(job: Job, data: Marks, i: nat)
    requires job.FrameFits() && job.CarriedBy(BitsOf(data)) && i < |job.list.cbs|
    ensures |job.words| == |job.list.cbs| && |data| == job.len
    ensures job.list.Result(data, i) == Decode(job.list.t, job.list.cbs[i], job.words[i])
    ensures IsCodeword(job.list.t, job.list.cbs[i], job.words[i])
  {
    hide *;
    FrameParts(job);
    CodewordAt(job, i);
    CarriedLength(job, data);
    ResultIs(job.list, data, i);
    if i < job.Segments() {
      PriorityIs(job, data, i);
    } else {
      OtherDecodes(job, data, i - job.Segments());
    }
  }

  lemma CarriedLength(job: Job, data: Marks)
    requires job.Legal() && job.Segments() > 0 && job.PrioritiesFit() && job.CarriedBy(BitsOf(data))
    ensures |data| == job.len
  {
    hide WellFormed, Job.CarriesSlot;
  }

  lemma ResultIs(list: Listing, data: Marks, i: nat)
    requires list.Legal() && list.Segments(|data|) > 0 && i < |list.cbs|
    ensures var S := list.Segments(|data|); var d := list.StepTwo(data);
            && (i < S ==> list.Result(data, i) == list.Priority(data, i))
            && (i >= S ==> |d.done| == |d.used| == |list.cbs| - S
                           && (d.done[i - S] ==> list.Result(data, i) == Decode(list.t, list.cbs[i], BitsOf(d.used[i - S]))))
  {
    hide WellFormed, Decode, Listing.StepTwo, Listing.Priority;
  }
}
