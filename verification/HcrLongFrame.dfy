/** A frame that fits its segments, so that its bits carry everything, but not the registers of step 2. */
module HcrLongFrame {
  import opened Words
  import opened Codewords
  import opened CodewordsEncode
  import opened HcrSchedule
  import opened Hcr
  import opened HcrConservation
  import opened HcrLists
  import opened HcrJob
  import opened HcrDecode
  import opened HcrRegisters

  /** A book of one value, n bits long. */
  function OneValue(n: nat, vals: seq<int>): Book {
    TwoStep(n, seq(Pow2(n), i => First(0, 0)), [Second(n, vals)])
  }

  lemma OneValueIsPrefix(n: nat, vals: seq<int>)
    requires 1 <= n <= 16
    ensures PrefixTwoStep(OneValue(n, vals))
  {
    var b := OneValue(n, vals);
    hide Scale;
    assert forall c :: 0 <= c < |b.first| ==> SettledEntry(b, c);
  }

  /** Zero and zero in the four bits 0000, both escapes in all other five bits. */
  function ZerosOrEscapes(): (b: Book)
    ensures b.TwoStep? && b.n == 5 && b.second == [Second(4, [0, 0]), Second(5, [16, 16])]
  {
    TwoStep(5, seq(Pow2(5), i => First(if i < 2 then 0 else 1, 0)), [Second(4, [0, 0]), Second(5, [16, 16])])
  }

  lemma ZerosOrEscapesIsPrefix()
    ensures PrefixTwoStep(ZerosOrEscapes())
  {
    var b := ZerosOrEscapes();
    forall c: nat, c': nat | c < |b.first| && c' < |b.first| && SamePrefix(c, c', b.n, b.second[b.first[c].offset].bits)
      ensures b.first[c'] == b.first[c]
    {
      if c < 2 {
        FirstFour(c, c');
      } else {
        WholeFive(c, c');
      }
    }
    hide SamePrefix, Scale;
    assert forall c :: 0 <= c < |b.first| ==> SettledEntry(b, c);
  }

  lemma FirstFour(c: nat, c': nat)
    requires c < 2 && Low(c, 5)[..4] == Low(c', 5)[..4] && c' < Pow2(5)
    ensures c' < 2
  {
    assert Low(c, 5)[..4] == Low(c / 2, 4) && Low(c', 5)[..4] == Low(c' / 2, 4);
    assert Pow2(5) == 2 * Pow2(4);
    ValueOfLow(c / 2, 4);
    ValueOfLow(c' / 2, 4);
  }

  lemma WholeFive(c: nat, c': nat)
    requires c < Pow2(5) && c' < Pow2(5) && Low(c, 5)[..5] == Low(c', 5)[..5]
    ensures c == c'
  {
    assert Low(c, 5)[..5] == Low(c, 5) && Low(c', 5)[..5] == Low(c', 5);
    ValueOfLow(c, 5);
    ValueOfLow(c', 5);
  }

  /** A root with two leaves. */
  function TwoLeaves(w: nat): Book {
    var leaf := Node(true, seq(w, i => 0));
    Binary([Node(false, seq(w, i => if i == 0 then 1 else 2)), leaf, leaf])
  }

  function ToyBook(cb: nat): Book {
    if cb == 11 then ZerosOrEscapes()
    else if IsBinary(cb) then TwoLeaves(Width(cb))
    else OneValue(1, seq(Width(cb), i => 0))
  }

  function ToyTables(): Tables {
    map cb: nat | 1 <= cb <= 11 :: ToyBook(cb)
  }

  lemma ToyTablesWellFormed()
    ensures WellFormed(ToyTables())
  {
    hide WellFormedBook, ToyBook;
    forall cb: nat | 1 <= cb <= 11 ensures WellFormedBook(ToyBook(cb), cb) {
      ToyBookWellFormed(cb);
    }
  }

  lemma ToyBookWellFormed(cb: nat)
    requires 1 <= cb <= 11
    ensures WellFormedBook(ToyBook(cb), cb)
  {
    hide PrefixTwoStep;
    if cb == 11 {
      ZerosOrEscapesIsPrefix();
    } else if !IsBinary(cb) {
      OneValueIsPrefix(1, seq(Width(cb), i => 0));
    }
  }

  /** The codeword of zero and zero. */
  function ShortWord(): (s: Bits)
    ensures |s| == 4
  {
    Zeros(4)
  }

  lemma ShortWordIsCodeword()
    ensures WellFormed(ToyTables()) && IsCodeword(ToyTables(), 11, ShortWord())
  {
    ToyTablesWellFormed();
    var t, s, b := ToyTables(), ShortWord(), ZerosOrEscapes();
    ZerosOrEscapesIsPrefix();
    FirstEntry(s);
    assert Lookup(b, 11, s) == Done([0, 0], 4) by {
      hide Codewords.Index, PrefixTwoStep, WellFormedBook;
      assert WellFormedBook(t[11], 11);
    }
    hide Lookup, WellFormedBook, WellFormed;
    assert s[4..] == [];
  }

  lemma FirstEntry(s: Bits)
    requires s == Zeros(4)
    ensures Codewords.Index(s, 5) == 0
  {
    assert Padded(s, 5) == Zeros(5);
    ValueZeros(5);
  }

  /** The five ones that stand for two escapes. */
  function EscapeWord(): Bits {
    Times(5)
  }

  lemma EscapeWordIsTableWord()
    ensures WellFormed(ToyTables()) && IsTableWord(ToyTables(), 11, [8191, 8191], EscapeWord())
  {
    ToyTablesWellFormed();
    ZerosOrEscapesIsPrefix();
    var t, s, b := ToyTables(), EscapeWord(), ZerosOrEscapes();
    LaterEntry(s);
    assert Lookup(b, 11, s) == Done([16, 16], 5) by {
      hide Codewords.Index, PrefixTwoStep, WellFormedBook;
      assert WellFormedBook(t[11], 11);
    }
    hide Lookup, WellFormedBook, WellFormed;
    assert InTables(11, [8191, 8191]) == [16, 16];
  }

  lemma LaterEntry(s: Bits)
    requires s == Times(5)
    ensures Codewords.Index(s, 5) >= 2
  {
    var c := Codewords.Index(s, 5);
    assert Padded(s, 5) == s;
    if c < 2 {
      TopClear(c);
    }
  }

  lemma TopClear(c: nat)
    requires c < 2
    ensures !Low(c, 5)[0]
  {
    LowZero(4);
    LowLast(c);
    hide Low;
  }

  lemma LowLast(c: nat)
    requires c < 2
    ensures Low(c, 5) == Low(0, 4) + [c % 2 == 1]
  {
    assert c / 2 == 0;
  }

  lemma {:induction false} LowZero(n: nat)
    ensures Low(0, n) == Zeros(n)
  {
    if n > 0 {
      LowZero(n - 1);
      assert Zeros(n) == Zeros(n - 1) + [false];
    }
  }

  /** Two escapes of the largest value that fits thirteen bits: the longest codeword of book 11. */
  function LongWord(): Bits {
    Encode(11, [8191, 8191], EscapeWord())
  }

  lemma LongWordIsCodeword()
    ensures WellFormed(ToyTables()) && IsCodeword(ToyTables(), 11, LongWord()) && |LongWord()| == 49
  {
    hide *;
    EscapeWordIsTableWord();
    LongParts();
    EncodeDecodes(ToyTables(), 11, [8191, 8191], EscapeWord());
    DecodesWhole(ToyTables(), 11, LongWord(), [8191, 8191]);
  }

  lemma LongParts()
    ensures CanCarry(11, [8191, 8191]) && IsSpectral(11) && LongWord() == Encode(11, [8191, 8191], EscapeWord())
    ensures |LongWord()| == 5 + (2 + (21 + 21))
  {
    LongEscape();
    LongSigns();
    hide EscapeCode, SignCode, Cuts;
  }

  lemma DecodesWhole(t: Tables, cb: nat, w: Bits, vals: seq<int>)
    requires WellFormed(t) && IsSpectral(cb) && Decode(t, cb, w) == Done(vals, |w|)
    ensures IsCodeword(t, cb, w)
  {
    hide WellFormed, Decode;
  }

  lemma LongEscape()
    ensures |EscapeCode(8191)| == 21
  {
    ScaleConst8(1);
    ScaleConst4(0x100);
    ScaleAdd(1, 8, 4);
    LogIs(8191, 12);
  }

  lemma LongSigns()
    ensures |SignCode(Cuts(11, [8191, 8191]), 0)| == 2
  {
    var c := Cuts(11, [8191, 8191]);
    assert c == [16, 16];
    assert SignCode(c, 2) == [];
    assert |SignCode(c, 1)| == 1;
  }

  /** Two segments of 49 bits, each with a short priority codeword, and one long codeword to share between them. */
  function LongFrame(): Job {
    Job(Listing(ToyTables(), [11, 11, 11], [0, 2, 4], 49), [ShortWord(), ShortWord(), LongWord()], 98)
  }

  lemma LongListing()
    ensures var list := LongFrame().list;
            && list.Spectral() && list.Before(1) == 49 && list.Before(2) == 98 && list.Segments(98) == 2
  {
    hide ShortWord, LongWord, ToyTables;
    var list := LongFrame().list;
    assert SegWidth(11, 49) == 49;
    assert list.Before(0) == 0;
    assert list.Before(1) == 49 && list.Before(2) == 98 && list.Before(3) == 147;
    assert list.SegmentsFrom(2, 98) == 2 && list.SegmentsFrom(1, 98) == 2 && list.SegmentsFrom(0, 98) == 2;
  }

  lemma LongFrameSizes()
    ensures var job := LongFrame();
            job.Legal() && job.Segments() == 2 && job.SlotSize(0) == 49 && job.SlotSize(1) == 49 && job.PrioritiesFit()
  {
    hide ShortWord, LongWord, ToyTables, Listing.Segments, Listing.Before, WellFormed;
    LongListing();
    ToyTablesWellFormed();
    assert |ShortWord()| == 4 && SegWidth(11, 49) == 49;
  }

  lemma LongLayout()
    ensures LongFrame().Legal() && LongFrame().Segments() == 2 && LongFrame().PrioritiesFit()
    ensures var st := LongFrame().Layout();
            && |st.slots| == 2 && st.slots[0].Free() == 45 && st.slots[1].Free() == 45
            && st.rem == [LongWord()]
  {
    LongFrameSizes();
    hide LongWord, ToyTables, WellFormed, Listing.Segments, Listing.Before;
  }

  /** Two segments with 45 free bits each, and one codeword of 49 bits for them. */
  ghost predicate TwoSlots(st: State, w: Bits) {
    && st.Valid() && |st.slots| == 2 && st.slots[0].Free() == 45 && st.slots[1].Free() == 45
    && st.rem == [w] && |w| == 49
  }

  lemma TwoSlotsFit(st: State, w: Bits)
    requires TwoSlots(st, w)
    ensures Fits(st)
  {
    FreeOfTwo(st.slots);
    RemOfOne(st.rem, w);
  }

  lemma FreeOfTwo(slots: seq<Slot>)
    requires |slots| == 2 && slots[0].Valid() && slots[1].Valid()
    ensures SumFree(slots) == slots[0].Free() + slots[1].Free()
  {
    var rest := slots[1..];
    assert rest[1..] == [] && rest[0] == slots[1];
    assert SumFree(rest) == rest[0].Free() + SumFree(rest[1..]);
  }

  lemma RemOfOne(rem: seq<Bits>, w: Bits)
    requires rem == [w]
    ensures SumRem(rem) == |w|
  {
    assert rem[1..] == [];
  }

  /** The second visit would merge 45 stashed bits with 45 of the other segment. */
  lemma SecondVisitOverflows(st: State, w: Bits)
    requires TwoSlots(st, w)
    ensures !SetsFit([w], st, 1, Sets(3, 2))
  {
    FirstVisit(st, w);
    Segments01();
    OneVisit(w, st, 1, 0, 0);
    hide Step, TwoSlots, RunBase, BaseFits;
    var next := Step(st, 0, 0, true);
    OneVisit(w, next, 1, 1, 0);
    NotTwice(w, next);
    NoTrialLeft(w, st, next, 1, 0);
  }

  lemma NotTwice(w: Bits, next: State)
    requires next.Valid() && |next.slots| == 2 && |next.rem| == 1 && |w| == 49
    requires |next.rem[0]| == 4 && next.slots[1].Free() == 45
    ensures !VisitFits([w], next, 1, 0)
  {
  }

  lemma NoTrialLeft(w: Bits, st: State, next: State, set_: nat, trial: nat)
    requires st.Valid() && |st.slots| == 2 && |st.rem| == 1 && set_ == 1 && trial == 0
    requires next.Valid() && |next.slots| == 2 && |next.rem| == 1 && RunBase(st, set_, trial, 0) == next
    requires !BaseFits([w], next, set_, trial + 1, 0)
    ensures !SetsFit([w], st, set_, Sets(3, 2))
  {
    hide RunBase, BaseFits, RunTrials;
    assert !TrialsFit([w], next, set_, trial + 1);
    assert !TrialsFit([w], st, set_, trial);
  }

  /** With one codeword to write, a trial of the first set is one visit. */
  lemma OneVisit(w: Bits, st: State, set_: nat, trial: nat, base: nat)
    requires st.Valid() && |st.slots| == 2 && |st.rem| == 1 && set_ == 1 && base == 0
    ensures var g := Segment(2, trial, base);
            && RunBase(st, set_, trial, base) == Step(st, g, 0, Backward(set_))
            && (BaseFits([w], st, set_, trial, base) ==> VisitFits([w], st, g, 0))
  {
    hide Step, Segment, VisitFits, Backward;
    var next := Step(st, Segment(2, trial, base), 0, Backward(set_));
    NoSecondVisit(next, set_, trial, base + 1);
  }

  lemma NoSecondVisit(st: State, set_: nat, trial: nat, base: nat)
    requires st.Valid() && |st.slots| == 2 && |st.rem| == 1 && set_ == 1 && base == 1
    ensures RunBase(st, set_, trial, base) == st
  {
  }

  /** Segment 0 comes first, then segment 1. */
  lemma Segments01()
    ensures Segment(2, 0, 0) == 0 && Segment(2, 1, 0) == 1 && Backward(1)
  {
  }

  lemma FirstVisit(st: State, w: Bits)
    requires TwoSlots(st, w)
    ensures |st.slots| == 2 && |st.rem| == 1 && |w| == 49
    ensures var next := Step(st, 0, 0, true);
            |next.slots| == 2 && |next.rem| == 1 && |next.rem[0]| == 4 && next.slots[1].Free() == 45
  {
    hide Put;
  }

  /**
    * The limit is real: this frame fits its segments, so the round trip on lists holds for
    * it, but whatever carries it, the registers do not hold what a visit merges.
    */
  lemma LongFrameOverflows(data: Marks)
    ensures LongFrame().FrameFits() && !JobHolds(LongFrame())
    ensures LongFrame().CarriedBy(BitsOf(data)) ==> |data| == 98 && !RegistersHold(LongFrame().list, data)
  {
    hide *;
    LongFrameSizes();
    LongLayout();
    ShortWordIsCodeword();
    LongWordIsCodeword();
    LongFrameIs();
    var job, st, w := LongFrame(), LongFrame().Layout(), LongWord();
    AreTwoSlots(st, w);
    TwoSlotsFit(st, w);
    SecondVisitOverflows(st, w);
    Overflows(job, w);
    if job.CarriedBy(BitsOf(data)) {
      FrameParts(job);
      RegistersExact(job, data);
    }
  }

  lemma LongFrameIs()
    ensures var job := LongFrame();
            && job.list.t == ToyTables() && job.list.cbs == [11, 11, 11] && job.len == 98
            && job.words == [ShortWord(), ShortWord(), LongWord()]
  {
    hide ToyTables, ShortWord, LongWord;
  }

  lemma AreTwoSlots(st: State, w: Bits)
    requires st.Valid() && |st.slots| == 2 && st.slots[0].Free() == 45 && st.slots[1].Free() == 45
    requires st.rem == [w] && |w| == 49
    ensures TwoSlots(st, w)
  {
  }

  lemma Overflows(job: Job, w: Bits)
    requires WellFormed(job.list.t) && job.Legal() && job.Segments() == 2 && job.PrioritiesFit() && Fits(job.Layout())
    requires |job.list.cbs| == 3 && |job.words| == 3 && job.words[2] == w
    requires forall i :: 0 <= i < 3 ==> IsCodeword(job.list.t, job.list.cbs[i], job.words[i])
    requires |job.Layout().rem| == 1 && !SetsFit([w], job.Layout(), 1, Sets(3, 2))
    ensures job.FrameFits() && !JobHolds(job)
  {
    hide SetsFit, Fits, WellFormed, IsCodeword, Job.Layout, Job.Segments, Job.PrioritiesFit, Job.Legal, LastJoinHolds;
    assert job.words[2..] == [w];
  }
}
