/**
  * Step 2 of `reordered_spectral_data` in its registers and arrays, on any data, well formed
  * or not: it does to the registers what `AfterSets` does to lists, as long as each visit
  * that is made merges no more than a register holds.
  */
module HcrStepTwo {
  import opened Words
  import opened HcrWords
  import opened Codewords
  import opened HuffmanHcr
  import opened HcrSchedule
  import opened Hcr
  import opened HcrConservation

  // ----- what the arrays hold

  ghost predicate SegmentHolds(s: Marks, r: Register) {
    r.Valid() && r.len <= 63 && r.Content() == BitsOf(s)
  }

  ghost predicate SegmentsHold(d: Desk, segs: seq<Register>) {
    |segs| == |d.segs| && forall g :: 0 <= g < |segs| ==> SegmentHolds(d.segs[g], segs[g])
  }

  ghost predicate RecordHolds(cb: nat, sp: nat, done: bool, stash: Marks, c: Codeword) {
    && c.cb == cb && c.spOffset == sp && c.decoded == done && c.bits.Valid()
    && (!done ==> c.bits.Content() == BitsOf(stash))
  }

  ghost predicate RecordsHold(p: Plan, d: Desk, cws: seq<Codeword>) {
    && |d.done| == |d.stash| == |p.cbs| == |p.sps| <= |cws|
    && forall i :: 0 <= i < |d.done| ==> RecordHolds(p.cbs[i], p.sps[i], d.done[i], d.stash[i], cws[i])
  }

  /** The values of a decoded codeword, the bits of which are w, stand from line at on. */
  ghost predicate ValuesAt(t: Tables, cb: nat, w: Bits, at: nat, sp: seq<int>)
    requires WellFormed(t)
  {
    IsCodeword(t, cb, w) && at + Width(cb) <= |sp| && sp[at..at + Width(cb)] == Decode(t, cb, w).vals
  }

  ghost predicate ValuesHold(p: Plan, d: Desk, sp: seq<int>)
    requires WellFormed(p.t)
  {
    && |d.done| == |d.used| == |p.cbs| == |p.sps|
    && forall i :: 0 <= i < |d.done| && d.done[i] ==> ValuesAt(p.t, p.cbs[i], BitsOf(d.used[i]), p.sps[i], sp)
  }

  /** The arrays hold what lies on the desk, and the spectrum the values of what has been decoded. */
  ghost predicate Holds(p: Plan, d: Desk, segs: seq<Register>, cws: seq<Codeword>, sp: seq<int>) {
    && d.Valid() && GoodPlan(p, |sp|)
    && SegmentsHold(d, segs) && RecordsHold(p, d, cws) && ValuesHold(p, d, sp)
  }

  // ----- visits that a register can serve

  /**
    * If the visit of codeword i to segment g is made: its merge fits one register, and no
    * escape in it shifts further than C defines.
    */
  ghost predicate VisitHolds(t: Tables, cbs: seq<nat>, d: Desk, g: nat, i: nat)
    requires WellFormed(t) && d.Valid() && |cbs| == |d.done| && g < |d.segs| && i < |d.done|
  {
    d.done[i] || d.segs[g] == [] ||
    (&& (d.stash[i] != [] ==> |d.segs[g]| != 32 && |d.stash[i]| + |d.segs[g]| <= 64)
     && (IsSpectral(cbs[i]) ==> !Decode(t, cbs[i], BitsOf(d.stash[i]) + BitsOf(d.segs[g])).Wild?))
  }

  ghost predicate BaseHolds(t: Tables, cbs: seq<nat>, d: Desk, set_: nat, trial: nat, base: nat)
    requires WellFormed(t) && d.Valid() && |cbs| == |d.done| && set_ >= 1
    decreases |d.segs| - base
  {
    var S := |d.segs|;
    var i := HcrSchedule.Index(S, set_, base);
    base >= S || i >= |d.done| ||
    (VisitHolds(t, cbs, d, Segment(S, trial, base), i)
     && BaseHolds(t, cbs, Visited(DecodedLength(t), cbs, d, Segment(S, trial, base), i), set_, trial, base + 1))
  }

  ghost predicate TrialsHold(t: Tables, cbs: seq<nat>, d: Desk, set_: nat, trial: nat)
    requires WellFormed(t) && d.Valid() && |cbs| == |d.done| && set_ >= 1
    decreases |d.segs| - trial
  {
    trial >= |d.segs| ||
    (BaseHolds(t, cbs, d, set_, trial, 0)
     && TrialsHold(t, cbs, AfterBase(DecodedLength(t), cbs, d, set_, trial, 0), set_, trial + 1))
  }

  ghost predicate SetsHold(t: Tables, cbs: seq<nat>, d: Desk, set_: nat, sets: nat)
    requires WellFormed(t) && d.Valid() && |cbs| == |d.done| && set_ >= 1
    decreases sets + 1 - set_
  {
    set_ > sets ||
    (TrialsHold(t, cbs, d, set_, 0)
     && SetsHold(t, cbs, Turned(AfterTrials(DecodedLength(t), cbs, d, set_, 0)), set_ + 1, sets))
  }

  // ----- one visit

  /**
    * A codeword is taken off the front of what was stashed and what the segment holds; when
    * there is none, all of it becomes the stash and the segment is empty, since a failed read
    * only clears the length.
    */
  method VisitRegisters(t: Tables, cb: nat, segment: Register, bits: Register, spectral: array<int>, at: nat)
    returns (segment': Register, ok: bool, stash: Register)
    requires WellFormed(t) && IsSpectral(cb) && at + Width(cb) <= spectral.Length
    requires segment.Valid() && bits.Valid() && 0 < segment.len && bits.len + segment.len <= 64
    requires bits.len > 0 ==> segment.len != 32
    requires !Decode(t, cb, bits.Content() + segment.Content()).Wild?
    modifies spectral
    ensures var all := bits.Content() + segment.Content();
            var o := Decode(t, cb, all);
            && ok == o.Done? && segment'.Valid()
            && (ok ==> segment'.Content() == all[o.n..] && spectral[at..at + Width(cb)] == o.vals)
            && (!ok ==> segment'.Content() == [] && stash.Valid() && stash.Content() == all)
    ensures spectral[..at] == old(spectral[..at])
    ensures spectral[at + Width(cb)..] == old(spectral[at + Width(cb)..])
  {
    hide Decode, WellFormed, Register.Content, ConcatBits;
    var r := segment;
    if bits.len != 0 {
      ConcatContent(segment, bits);
      r := ConcatBits(segment, bits);
    }
    NoBits(bits);
    NoBits(segment);
    NoBits(r);
    assert r.Content() == bits.Content() + segment.Content();
    var tmplen := r.len;
    var ret;
    segment', ret := SpectralData2(t, cb, r, spectral, at);
    ok := ret >= 0;
    ContentAfter(r, if ok then Decode(t, cb, r.Content()).n else 0);
    NoBits(segment');
    stash := segment'.(len := tmplen);
  }

  /** The body of the innermost loop. */
  method Visit(ghost p: Plan, t: Tables, segment: array<Register>, n: nat, g: nat, codeword: array<Codeword>, i: nat,
               spectral: array<int>, ghost d: Desk)
    requires t == p.t && n <= segment.Length && g < |d.segs| && i < |d.done|
    requires Holds(p, d, segment[..n], codeword[..], spectral[..])
    requires VisitHolds(t, p.cbs, d, g, i)
    modifies segment, codeword, spectral
    ensures Holds(p, Visited(DecodedLength(t), p.cbs, d, g, i), segment[..n], codeword[..], spectral[..])
    ensures Frame(p, old(spectral[..]), spectral[..])
  {
    hide *;
    ghost var segs, cws, sp := segment[..n], codeword[..], spectral[..];
    HoldsAt(p, d, segs, cws, sp, g, i);
    var c := codeword[i];
    if !c.decoded && segment[g].len > 0 {
      VisitReady(p, d, segs, cws, sp, g, i);
      var r, ok, stash := VisitRegisters(t, c.cb, segment[g], c.bits, spectral, c.spOffset);
      segment[g] := r;
      codeword[i] := if ok then c.(decoded := true) else c.(bits := stash);
      assert segment[..n] == segs[g := r] && codeword[..] == cws[i := codeword[i]];
      VisitKeeps(p, d, segs, cws, sp, g, i, ok, r, stash, spectral[..]);
      FrameVisit(p, i, sp, spectral[..]);
    } else {
      NoVisit(p, d, segs, cws, sp, g, i);
      FrameSelf(p, sp);
    }
  }

  lemma HoldsAt(p: Plan, d: Desk, segs: seq<Register>, cws: seq<Codeword>, sp: seq<int>, g: nat, i: nat)
    requires Holds(p, d, segs, cws, sp) && g < |d.segs| && i < |d.done|
    ensures d.Valid() && GoodPlan(p, |sp|) && WellFormed(p.t) && |d.done| == |p.cbs| == |p.sps|
    ensures g < |segs| == |d.segs| && i < |cws| && SegmentHolds(d.segs[g], segs[g])
    ensures RecordHolds(p.cbs[i], p.sps[i], d.done[i], d.stash[i], cws[i])
    ensures cws[i].decoded == d.done[i] && segs[g].Valid() && segs[g].len <= 63 && (segs[g].len > 0 <==> d.segs[g] != [])
    ensures cws[i].cb == p.cbs[i] && cws[i].spOffset == p.sps[i]
    ensures IsSpectral(cws[i].cb) && cws[i].spOffset + Width(cws[i].cb) <= |sp|
  {
    hide WellFormed, Register.Content, ValuesHold;
    NoBits(segs[g]);
  }

  lemma VisitReady(p: Plan, d: Desk, segs: seq<Register>, cws: seq<Codeword>, sp: seq<int>, g: nat, i: nat)
    requires Holds(p, d, segs, cws, sp) && g < |d.segs| == |segs| && i < |d.done| == |p.cbs| && i < |cws| && WellFormed(p.t)
    requires d.Valid() && VisitHolds(p.t, p.cbs, d, g, i) && !d.done[i] && d.segs[g] != [] && IsSpectral(cws[i].cb)
    ensures cws[i].bits.Valid() && cws[i].bits.len + segs[g].len <= 64 && (cws[i].bits.len > 0 ==> segs[g].len != 32)
    ensures !Decode(p.t, cws[i].cb, cws[i].bits.Content() + segs[g].Content()).Wild?
  {
    hide WellFormed, Register.Content, ValuesHold, Decode, GoodPlan;
    assert RecordHolds(p.cbs[i], p.sps[i], d.done[i], d.stash[i], cws[i]);
    assert SegmentHolds(d.segs[g], segs[g]);
    NoBits(segs[g]);
    NoBits(cws[i].bits);
  }

  lemma NoVisit(p: Plan, d: Desk, segs: seq<Register>, cws: seq<Codeword>, sp: seq<int>, g: nat, i: nat)
    requires Holds(p, d, segs, cws, sp) && WellFormed(p.t) && d.Valid() && |p.cbs| == |d.done|
    requires g < |d.segs| && i < |d.done| && (d.done[i] || d.segs[g] == [])
    ensures Visited(DecodedLength(p.t), p.cbs, d, g, i) == d && |p.sps| == |p.cbs|
  {
    hide WellFormed, SegmentsHold, ValuesHold;
  }

  /** What the registers say of a visit that is made, when its outcome is o. */
  lemma VisitIs(t: Tables, cbs: seq<nat>, d: Desk, g: nat, i: nat)
    requires WellFormed(t) && d.Valid() && |cbs| == |d.done| && g < |d.segs| && i < |d.done|
    requires !d.done[i] && d.segs[g] != [] && IsSpectral(cbs[i])
    ensures var all := d.stash[i] + d.segs[g];
            var o := Decode(t, cbs[i], BitsOf(d.stash[i]) + BitsOf(d.segs[g]));
            && (o.Done? ==> o.n <= |all|)
            && BitsOf(all) == BitsOf(d.stash[i]) + BitsOf(d.segs[g])
            && var r := if o.Done?
                 then Desk(d.segs[g := all[o.n..]], d.stash[i := []], d.used[i := all[..o.n]], d.done[i := true])
                 else Desk(d.segs[g := []], d.stash[i := all], d.used, d.done);
               Visited(DecodedLength(t), cbs, d, g, i) == r
  {
    hide WellFormed, Decode;
    BitsOfConcat(d.stash[i], d.segs[g]);
  }

  /** What one visit does to its segment, its record and the spectrum keeps all of them in step. */
  lemma VisitKeeps(p: Plan, d: Desk, segs: seq<Register>, cws: seq<Codeword>, sp: seq<int>, g: nat, i: nat,
                   ok: bool, r: Register, stash: Register, sp': seq<int>)
    requires Holds(p, d, segs, cws, sp) && WellFormed(p.t) && d.Valid() && |p.cbs| == |p.sps| == |d.done|
    requires g < |d.segs| == |segs| && i < |d.done| && i < |cws| && !d.done[i] && d.segs[g] != [] && IsSpectral(p.cbs[i])
    requires RecordHolds(p.cbs[i], p.sps[i], d.done[i], d.stash[i], cws[i]) && SegmentHolds(d.segs[g], segs[g])
    requires cws[i].bits.len + segs[g].len <= 64 && r.Valid() && |sp'| == |sp|
    requires var all := cws[i].bits.Content() + segs[g].Content(); var o := Decode(p.t, cws[i].cb, all);
             var at, w := cws[i].spOffset, Width(cws[i].cb);
             && at + w <= |sp| && ok == o.Done?
             && (ok ==> r.Content() == all[o.n..] && sp'[at..at + w] == o.vals)
             && (!ok ==> r.Content() == [] && stash.Valid() && stash.Content() == all)
             && sp'[..at] == sp[..at] && sp'[at + w..] == sp[at + w..]
    ensures var c := if ok then cws[i].(decoded := true) else cws[i].(bits := stash);
            Holds(p, Visited(DecodedLength(p.t), p.cbs, d, g, i), segs[g := r], cws[i := c], sp')
  {
    hide Decode, WellFormed, Register.Content, GoodPlan, SegmentsHold, RecordsHold, ValuesHold, Holds, Visited,
         DecodedLength, BitsOf, IsCodeword;
    NoBits(r);
    HeldBits(p.cbs[i], p.sps[i], d.done[i], d.stash[i], cws[i], d.segs[g], segs[g]);
    VisitIs(p.t, p.cbs, d, g, i);
    var all := d.stash[i] + d.segs[g];
    var c := if ok then cws[i].(decoded := true) else cws[i].(bits := stash);
    var o := Decode(p.t, p.cbs[i], BitsOf(all));
    var d' := Visited(DecodedLength(p.t), p.cbs, d, g, i);
    HoldsParts(p, d, segs, cws, sp);
    if ok {
      BitsOfParts(all, o.n);
      TakenOff(p.t, p.cbs[i], BitsOf(all));
    }
    NewSegment(d, d', segs, g, r);
    NewRecord(p, d, d', cws, i, c);
    NewValues(p, d, d', i, sp, sp');
    HoldsWhole(p, d', segs[g := r], cws[i := c], sp');
  }

  lemma HeldBits(cb: nat, sp: nat, done: bool, stash: Marks, c: Codeword, s: Marks, r: Register)
    requires RecordHolds(cb, sp, done, stash, c) && SegmentHolds(s, r) && !done
    ensures c.cb == cb && c.spOffset == sp && c.bits.Valid() && c.bits.Content() == BitsOf(stash) && r.Content() == BitsOf(s)
    ensures c.bits.len == |stash| && r.len == |s|
  {
    hide Register.Content;
    NoBits(r);
    NoBits(c.bits);
  }

  lemma HoldsParts(p: Plan, d: Desk, segs: seq<Register>, cws: seq<Codeword>, sp: seq<int>)
    requires Holds(p, d, segs, cws, sp)
    ensures d.Valid() && GoodPlan(p, |sp|) && WellFormed(p.t)
    ensures SegmentsHold(d, segs) && RecordsHold(p, d, cws) && ValuesHold(p, d, sp)
  {
    hide WellFormed, SegmentsHold, RecordsHold, ValuesHold;
  }

  lemma HoldsWhole(p: Plan, d: Desk, segs: seq<Register>, cws: seq<Codeword>, sp: seq<int>)
    requires d.Valid() && GoodPlan(p, |sp|) && WellFormed(p.t)
    requires SegmentsHold(d, segs) && RecordsHold(p, d, cws) && ValuesHold(p, d, sp)
    ensures Holds(p, d, segs, cws, sp)
  {
    hide WellFormed, SegmentsHold, RecordsHold, ValuesHold, GoodPlan;
  }

  /** What is taken off a list as a codeword is a codeword. */
  lemma TakenOff(t: Tables, cb: nat, all: Bits)
    requires WellFormed(t) && IsSpectral(cb) && Decode(t, cb, all).Done?
    ensures var o := Decode(t, cb, all); o.n <= |all| && IsCodeword(t, cb, all[..o.n]) && Decode(t, cb, all[..o.n]) == o && o.n > 0
  {
    hide WellFormed;
    var n := Decode(t, cb, all).n;
    assert all[..n][..n] == all[..n];
    DecodeLocal(t, cb, all, all[..n]);
  }

  lemma NewSegment(d: Desk, d': Desk, segs: seq<Register>, g: nat, r: Register)
    requires SegmentsHold(d, segs) && g < |d.segs| == |segs| == |d'.segs| && d'.segs == d.segs[g := d'.segs[g]]
    requires SegmentHolds(d'.segs[g], r)
    ensures SegmentsHold(d', segs[g := r])
  {
    hide SegmentHolds;
  }

  lemma NewRecord(p: Plan, d: Desk, d': Desk, cws: seq<Codeword>, i: nat, c: Codeword)
    requires RecordsHold(p, d, cws) && i < |d.done| && |d'.done| == |d'.stash| == |d.done|
    requires forall j :: 0 <= j < |d.done| && j != i ==> d'.done[j] == d.done[j] && d'.stash[j] == d.stash[j]
    requires RecordHolds(p.cbs[i], p.sps[i], d'.done[i], d'.stash[i], c)
    ensures RecordsHold(p, d', cws[i := c])
  {
    hide RecordHolds;
  }

  lemma NewValues(p: Plan, d: Desk, d': Desk, i: nat, sp: seq<int>, sp': seq<int>)
    requires GoodPlan(p, |sp|) && WellFormed(p.t) && ValuesHold(p, d, sp) && i < |d.done| && |d'.done| == |d'.used| == |d.done|
    requires forall j :: 0 <= j < |d.done| && j != i ==> d'.done[j] == d.done[j] && d'.used[j] == d.used[j]
    requires d'.done[i] ==> ValuesAt(p.t, p.cbs[i], BitsOf(d'.used[i]), p.sps[i], sp')
    requires var at, n := p.sps[i], Width(p.cbs[i]);
             |sp'| == |sp| && at + n <= |sp| && sp'[..at] == sp[..at] && sp'[at + n..] == sp[at + n..]
    ensures ValuesHold(p, d', sp')
  {
    hide Decode, WellFormed, IsCodeword;
    forall j | 0 <= j < |d'.done| && d'.done[j] ensures ValuesAt(p.t, p.cbs[j], BitsOf(d'.used[j]), p.sps[j], sp') {
      if j != i {
        assert ValuesAt(p.t, p.cbs[j], BitsOf(d.used[j]), p.sps[j], sp);
        assert Apart(p.sps[i], Width(p.cbs[i]), p.sps[j], Width(p.cbs[j]));
        Untouched(sp, sp', p.sps[i], Width(p.cbs[i]), p.sps[j], Width(p.cbs[j]));
      }
    }
  }

  lemma FrameVisit(p: Plan, i: nat, sp: seq<int>, sp': seq<int>)
    requires |p.sps| == |p.cbs| && i < |p.cbs| && |sp'| == |sp|
    requires var at, n := p.sps[i], Width(p.cbs[i]); at + n <= |sp| && sp'[..at] == sp[..at] && sp'[at + n..] == sp[at + n..]
    ensures Frame(p, sp, sp')
  {
    forall b: nat, m: nat | b + m <= |sp| && ClearOf(p, b, m) ensures sp'[b..b + m] == sp[b..b + m] {
      Untouched(sp, sp', p.sps[i], Width(p.cbs[i]), b, m);
    }
  }

  // ----- trials, sets, all sets

  /** One trial of a set. */
  method DecodeTrial(ghost p: Plan, t: Tables, segment: array<Register>, codeword: array<Codeword>,
                     numberOfSegments: nat, numberOfCodewords: nat, spectral: array<int>, set_: nat, trial: nat, ghost d0: Desk)
    returns (ghost d: Desk)
    requires t == p.t && set_ >= 1 && trial < numberOfSegments == |d0.segs| <= segment.Length
    requires numberOfCodewords == |d0.segs| + |d0.done|
    requires Holds(p, d0, segment[..numberOfSegments], codeword[..], spectral[..])
    requires |p.cbs| == |d0.done| && d0.Valid() && WellFormed(t) && BaseHolds(t, p.cbs, d0, set_, trial, 0)
    modifies segment, codeword, spectral
    ensures d0.Valid() && WellFormed(t) && d == AfterBase(DecodedLength(t), p.cbs, d0, set_, trial, 0)
    ensures Holds(p, d, segment[..numberOfSegments], codeword[..], spectral[..])
    ensures Frame(p, old(spectral[..]), spectral[..])
  {
    hide *;
    d := d0;
    HoldsParts(p, d, segment[..numberOfSegments], codeword[..], spectral[..]);
    PlanSizes(p, spectral.Length);
    FrameSelf(p, spectral[..]);
    var codewordBase := 0;
    while codewordBase < numberOfSegments
      invariant codewordBase <= numberOfSegments
      invariant d.Valid() && |d.segs| == numberOfSegments && |d.done| == |d0.done|
      invariant AfterBase(DecodedLength(t), p.cbs, d0, set_, trial, 0)
             == AfterBase(DecodedLength(t), p.cbs, d, set_, trial, codewordBase)
      invariant BaseHolds(t, p.cbs, d, set_, trial, codewordBase)
      invariant Frame(p, old(spectral[..]), spectral[..])
      invariant Holds(p, d, segment[..numberOfSegments], codeword[..], spectral[..])
    {
      var segmentIdx := Segment(numberOfSegments, trial, codewordBase);
      var codewordIdx := HcrSchedule.Index(numberOfSegments, set_, codewordBase);
      BaseStep(t, p.cbs, d, set_, trial, codewordBase);
      if codewordIdx >= numberOfCodewords - numberOfSegments {
        break;
      }
      ghost var sp := spectral[..];
      Visit(p, t, segment, numberOfSegments, segmentIdx, codeword, codewordIdx, spectral, d);
      FrameTrans(p, old(spectral[..]), sp, spectral[..]);
      d := Visited(DecodedLength(t), p.cbs, d, segmentIdx, codewordIdx);
      codewordBase := codewordBase + 1;
    }
    if codewordBase >= numberOfSegments {
      BaseStep(t, p.cbs, d, set_, trial, codewordBase);
    }
  }

  lemma PlanSizes(p: Plan, n: nat)
    requires GoodPlan(p, n)
    ensures |p.sps| == |p.cbs|
  {
  }

  /** One visit more, or none left. */
  lemma BaseStep(t: Tables, cbs: seq<nat>, d: Desk, set_: nat, trial: nat, base: nat)
    requires WellFormed(t) && d.Valid() && |cbs| == |d.done| && set_ >= 1 && BaseHolds(t, cbs, d, set_, trial, base)
    ensures var S := |d.segs|; var i := HcrSchedule.Index(S, set_, base); var takes := DecodedLength(t);
            if base >= S || i >= |d.done| then AfterBase(takes, cbs, d, set_, trial, base) == d
            else
              var g := Segment(S, trial, base);
              var e := Visited(takes, cbs, d, g, i);
              && g < S && VisitHolds(t, cbs, d, g, i) && BaseHolds(t, cbs, e, set_, trial, base + 1)
              && AfterBase(takes, cbs, d, set_, trial, base) == AfterBase(takes, cbs, e, set_, trial, base + 1)
  {
    hide VisitHolds, Visited, WellFormed, Segment, HcrSchedule.Index, DecodedLength;
  }

  /** One set: every trial, every position, as in the two inner loops of step 2. */
  method DecodeSet(ghost p: Plan, t: Tables, segment: array<Register>, codeword: array<Codeword>,
                   numberOfSegments: nat, numberOfCodewords: nat, spectral: array<int>, set_: nat, ghost d0: Desk)
    returns (ghost d: Desk)
    requires t == p.t && set_ >= 1 && numberOfSegments == |d0.segs| <= segment.Length
    requires numberOfCodewords == |d0.segs| + |d0.done|
    requires Holds(p, d0, segment[..numberOfSegments], codeword[..], spectral[..])
    requires |p.cbs| == |d0.done| && d0.Valid() && WellFormed(t) && TrialsHold(t, p.cbs, d0, set_, 0)
    modifies segment, codeword, spectral
    ensures d0.Valid() && WellFormed(t) && d == AfterTrials(DecodedLength(t), p.cbs, d0, set_, 0)
    ensures Holds(p, d, segment[..numberOfSegments], codeword[..], spectral[..])
    ensures Frame(p, old(spectral[..]), spectral[..])
  {
    hide *;
    d := d0;
    HoldsParts(p, d, segment[..numberOfSegments], codeword[..], spectral[..]);
    PlanSizes(p, spectral.Length);
    FrameSelf(p, spectral[..]);
    for trial := 0 to numberOfSegments
      invariant d.Valid() && |d.segs| == numberOfSegments && |d.done| == |d0.done|
      invariant AfterTrials(DecodedLength(t), p.cbs, d0, set_, 0) == AfterTrials(DecodedLength(t), p.cbs, d, set_, trial)
      invariant TrialsHold(t, p.cbs, d, set_, trial)
      invariant Frame(p, old(spectral[..]), spectral[..])
      invariant Holds(p, d, segment[..numberOfSegments], codeword[..], spectral[..])
    {
      TrialStep(t, p.cbs, d, set_, trial);
      ghost var sp := spectral[..];
      d := DecodeTrial(p, t, segment, codeword, numberOfSegments, numberOfCodewords, spectral, set_, trial, d);
      FrameTrans(p, old(spectral[..]), sp, spectral[..]);
    }
    TrialStep(t, p.cbs, d, set_, numberOfSegments);
  }

  lemma TrialStep(t: Tables, cbs: seq<nat>, d: Desk, set_: nat, trial: nat)
    requires WellFormed(t) && d.Valid() && |cbs| == |d.done| && set_ >= 1 && TrialsHold(t, cbs, d, set_, trial)
    ensures var takes := DecodedLength(t);
            if trial >= |d.segs| then AfterTrials(takes, cbs, d, set_, trial) == d
            else
              var e := AfterBase(takes, cbs, d, set_, trial, 0);
              && BaseHolds(t, cbs, d, set_, trial, 0) && TrialsHold(t, cbs, e, set_, trial + 1)
              && AfterTrials(takes, cbs, d, set_, trial) == AfterTrials(takes, cbs, e, set_, trial + 1)
  {
    hide BaseHolds, AfterBase, WellFormed, DecodedLength;
  }

  /**
    * Step 2: all sets, turning the segments round after each. Whatever the segments hold, the
    * arrays end up with what the lists end up with.
    */
  method DecodeNonPriority(ghost p: Plan, t: Tables, segment: array<Register>, codeword: array<Codeword>,
                           numberOfSegments: nat, numberOfCodewords: nat, spectral: array<int>, ghost d0: Desk)
    returns (ghost d: Desk)
    requires t == p.t && 0 < numberOfSegments == |d0.segs| <= segment.Length
    requires numberOfCodewords == |d0.segs| + |d0.done|
    requires Holds(p, d0, segment[..numberOfSegments], codeword[..], spectral[..])
    requires |p.cbs| == |d0.done| && d0.Valid() && WellFormed(t)
    requires SetsHold(t, p.cbs, d0, 1, Sets(numberOfCodewords, numberOfSegments))
    modifies segment, codeword, spectral
    ensures d0.Valid() && WellFormed(t)
    ensures d == AfterSets(DecodedLength(t), p.cbs, d0, 1, Sets(numberOfCodewords, numberOfSegments))
    ensures Holds(p, d, segment[..numberOfSegments], codeword[..], spectral[..])
    ensures Frame(p, old(spectral[..]), spectral[..])
  {
    hide *;
    var numberOfSets := Sets(numberOfCodewords, numberOfSegments);
    d := d0;
    HoldsParts(p, d, segment[..numberOfSegments], codeword[..], spectral[..]);
    PlanSizes(p, spectral.Length);
    FrameSelf(p, spectral[..]);
    var set_ := 1;
    while set_ <= numberOfSets
      invariant 1 <= set_ && d.Valid() && |d.segs| == numberOfSegments && |d.done| == |d0.done|
      invariant AfterSets(DecodedLength(t), p.cbs, d0, 1, numberOfSets) == AfterSets(DecodedLength(t), p.cbs, d, set_, numberOfSets)
      invariant SetsHold(t, p.cbs, d, set_, numberOfSets)
      invariant Frame(p, old(spectral[..]), spectral[..])
      invariant Holds(p, d, segment[..numberOfSegments], codeword[..], spectral[..])
    {
      SetStep(t, p.cbs, d, set_, numberOfSets);
      ghost var sp := spectral[..];
      d := DecodeSet(p, t, segment, codeword, numberOfSegments, numberOfCodewords, spectral, set_, d);
      FrameTrans(p, old(spectral[..]), sp, spectral[..]);
      TurnAll(p, segment, codeword, numberOfSegments, spectral, d);
      d := Turned(d);
      set_ := set_ + 1;
    }
    SetStep(t, p.cbs, d, set_, numberOfSets);
  }

  lemma SetStep(t: Tables, cbs: seq<nat>, d: Desk, set_: nat, sets: nat)
    requires WellFormed(t) && d.Valid() && |cbs| == |d.done| && set_ >= 1 && SetsHold(t, cbs, d, set_, sets)
    ensures var takes := DecodedLength(t);
            if set_ > sets then AfterSets(takes, cbs, d, set_, sets) == d
            else
              var e := AfterTrials(takes, cbs, d, set_, 0);
              && TrialsHold(t, cbs, d, set_, 0) && SetsHold(t, cbs, Turned(e), set_ + 1, sets)
              && AfterSets(takes, cbs, d, set_, sets) == AfterSets(takes, cbs, Turned(e), set_ + 1, sets)
  {
    hide TrialsHold, AfterTrials, Turned, WellFormed, DecodedLength;
  }

  method TurnAll(ghost p: Plan, segment: array<Register>, codeword: array<Codeword>, numberOfSegments: nat,
                 spectral: array<int>, ghost d: Desk)
    requires numberOfSegments <= segment.Length && d.Valid()
    requires Holds(p, d, segment[..numberOfSegments], codeword[..], spectral[..])
    modifies segment
    ensures d.Valid() && Holds(p, Turned(d), segment[..numberOfSegments], codeword[..], spectral[..])
  {
    hide *;
    ghost var segs := segment[..numberOfSegments];
    HoldsParts(p, d, segs, codeword[..], spectral[..]);
    TurnReady(d, segs);
    forall g | 0 <= g < numberOfSegments ensures segment[g].Valid() && segment[g].len <= 63 && segment[g] == segs[g] {
      assert segs[g] == segment[g];
    }
    ReverseSegments(segment, numberOfSegments);
    SegmentsTurned(d, segs, segment[..numberOfSegments]);
    HoldsTurned(p, d, codeword[..], spectral[..]);
    HoldsWhole(p, Turned(d), segment[..numberOfSegments], codeword[..], spectral[..]);
  }

  lemma TurnReady(d: Desk, segs: seq<Register>)
    requires SegmentsHold(d, segs)
    ensures forall g :: 0 <= g < |segs| ==> segs[g].Valid() && segs[g].len <= 63
  {
    hide Register.Content, Register.Valid;
  }

  lemma SegmentsTurned(d: Desk, segs: seq<Register>, segs': seq<Register>)
    requires d.Valid() && SegmentsHold(d, segs) && |segs'| == |segs|
    requires forall g :: 0 <= g < |segs| ==>
               && segs'[g].Valid() && segs'[g].len == segs[g].len && segs'[g].Content() == Rev(segs[g].Content())
    ensures SegmentsHold(Turned(d), segs')
  {
    hide Register.Content, Reverse, BitsOf, Register.Valid;
    forall g | 0 <= g < |segs'| ensures SegmentHolds(Turned(d).segs[g], segs'[g]) {
      assert SegmentHolds(d.segs[g], segs[g]);
      BitsOfReverse(d.segs[g]);
    }
  }

  lemma HoldsTurned(p: Plan, d: Desk, cws: seq<Codeword>, sp: seq<int>)
    requires d.Valid() && WellFormed(p.t) && RecordsHold(p, d, cws) && ValuesHold(p, d, sp)
    ensures RecordsHold(p, Turned(d), cws) && ValuesHold(p, Turned(d), sp)
  {
    hide RecordHolds, ValuesAt, WellFormed;
  }
}
