/**
  * Which frames of an encoder the registers of the decoder hold: exactly those of which
  * every merge is right. The condition on a visit is one on the encoder's lengths.
  */
module HcrRegisters {
  import opened Words
  import opened Codewords
  import opened HcrSchedule
  import opened Hcr
  import opened HcrConservation
  import opened HcrRoundTrip
  import opened HcrLimits
  import opened HcrLists
  import opened HcrJob
  import opened HcrStepTwo
  import opened HcrDecode

  /** The lengths on the decoder's desk are those of the encoder's schedule. */
  lemma MergeLengths(d: Desk, st: State, fin: State, back: bool, words: seq<Bits>, g: nat, i: nat)
    requires Match(d, st, fin, back, words) && g < |st.slots| && i < |st.rem|
    ensures d.Valid() && g < |d.segs| && i < |d.done| && |words| == |st.rem| && st.Valid()
    ensures |d.segs[g]| == st.slots[g].Free() && d.done[i] == (st.rem[i] == [])
    ensures !d.done[i] ==> |d.stash[i]| == |words[i]| - |st.rem[i]|
    ensures VisitMerges(words, st, g, i)
         == if !d.done[i] && d.segs[g] != [] && d.stash[i] != [] then [Merge(|d.stash[i]|, |d.segs[g]|)] else []
  {
    hide Extends, View;
    assert SegmentMatches(d, st, fin, back, g);
    assert HasRead(d, i, words[i], st.rem[i]);
  }

  /** What a visit tries to decode is the front of the codeword, or all of it and what follows. */
  lemma VisitTame(t: Tables, cbs: seq<nat>, d: Desk, g: nat, i: nat, st: State, fin: State, back: bool, words: seq<Bits>)
    requires WellFormed(t) && AllCodewords(t, cbs, words) && Match(d, st, fin, back, words)
    requires g < |st.slots| && i < |st.rem| && Extends(Step(st, g, i, back), fin)
    requires d.Valid() && g < |d.segs| && i < |d.done| == |cbs| && !d.done[i] && IsSpectral(cbs[i])
    ensures !Decode(t, cbs[i], BitsOf(d.stash[i]) + BitsOf(d.segs[g])).Wild?
  {
    hide Step, Extends, Decode, WellFormed, View;
    var k, tail := ReadsOn(st, fin, g, i, back);
    assert SegmentMatches(d, st, fin, back, g);
    assert HasRead(d, i, words[i], st.rem[i]);
    assert IsCodeword(t, cbs[i], words[i]);
    var w, rem := words[i], st.rem[i];
    var done := |w| - |rem|;
    ReadsTogether(w, rem, done, k, tail);
    TailOnly(st, g, i, back, k, tail);
    VisitOutcome(t, cbs[i], w, done, k, tail);
  }

  lemma ReadsTogether(w: Bits, rem: Bits, done: nat, k: nat, tail: Bits)
    requires done <= |w| && rem == w[done..] && k <= |rem|
    ensures w[..done] + (rem[..k] + tail) == w[..done + k] + tail
  {
    assert w[..done] + rem[..k] == w[..done + k];
  }

  lemma TailOnly(st: State, g: nat, i: nat, back: bool, k: nat, tail: Bits)
    requires st.Valid() && g < |st.slots| && i < |st.rem|
    requires k == Min(|st.rem[i]|, st.slots[g].Free()) && |tail| == st.slots[g].Free() - k
    ensures tail != [] ==> k == |st.rem[i]|
  {
  }

  lemma VisitHoldsExact(t: Tables, cbs: seq<nat>, d: Desk, g: nat, i: nat, st: State, fin: State, back: bool, words: seq<Bits>)
    requires WellFormed(t) && AllCodewords(t, cbs, words) && Match(d, st, fin, back, words)
    requires g < |st.slots| && i < |st.rem| && Extends(Step(st, g, i, back), fin)
    requires d.Valid() && g < |d.segs| && i < |d.done| == |cbs| && st.Valid() && |words| == |st.rem|
    ensures VisitHolds(t, cbs, d, g, i) <==> VisitFits(words, st, g, i)
  {
    hide Step, Extends, Decode, WellFormed, Match, AllCodewords, VisitMerges;
    MergeLengths(d, st, fin, back, words, g, i);
    if !d.done[i] && IsSpectral(cbs[i]) {
      VisitTame(t, cbs, d, g, i, st, fin, back, words);
    }
  }

  lemma {:induction false} BaseHoldsExact(t: Tables, cbs: seq<nat>, d: Desk, set_: nat, trial: nat, base: nat,
                                          st: State, fin: State, words: seq<Bits>)
    requires WellFormed(t) && AllCodewords(t, cbs, words) && set_ >= 1
    requires Match(d, st, fin, Backward(set_), words) && d.Valid() && st.Valid() && |cbs| == |d.done| && |words| == |st.rem|
    requires Extends(RunBase(st, set_, trial, base), fin)
    ensures BaseHolds(t, cbs, d, set_, trial, base) <==> BaseFits(words, st, set_, trial, base)
    decreases |d.segs| - base
  {
    hide *;
    MatchSizes(d, st, fin, Backward(set_), words);
    BaseUnfolds(DecodedLength(t), cbs, d, set_, trial, base, st);
    BaseCondition(t, cbs, d, set_, trial, base);
    BaseLengthsCondition(words, st, set_, trial, base);
    var S := |d.segs|;
    var i := HcrSchedule.Index(S, set_, base);
    if base < S && i < |d.done| {
      var g := Segment(S, trial, base);
      var next := Step(st, g, i, Backward(set_));
      OneVisit(t, DecodedLength(t), cbs, d, g, i, set_, trial, base, st, fin, words, next);
      RunBaseExtends(next, set_, trial, base + 1);
      ExtendsTrans(next, RunBase(next, set_, trial, base + 1), fin);
      VisitHoldsExact(t, cbs, d, g, i, st, fin, Backward(set_), words);
      BaseHoldsExact(t, cbs, Visited(DecodedLength(t), cbs, d, g, i), set_, trial, base + 1, next, fin, words);
    }
  }

  /** The condition on what is left of a trial, visit by visit. */
  lemma BaseCondition(t: Tables, cbs: seq<nat>, d: Desk, set_: nat, trial: nat, base: nat)
    requires WellFormed(t) && d.Valid() && set_ >= 1 && |cbs| == |d.done|
    ensures var S := |d.segs|; var i := HcrSchedule.Index(S, set_, base);
            if base < S && i < |d.done| then
              var g := Segment(S, trial, base);
              && g < S
              && (BaseHolds(t, cbs, d, set_, trial, base) <==>
                    && VisitHolds(t, cbs, d, g, i)
                    && BaseHolds(t, cbs, Visited(DecodedLength(t), cbs, d, g, i), set_, trial, base + 1))
            else BaseHolds(t, cbs, d, set_, trial, base)
  {
    hide Visited, Segment, HcrSchedule.Index, VisitHolds, WellFormed, DecodedLength;
  }

  /** The same for the encoder's lengths. */
  lemma BaseLengthsCondition(words: seq<Bits>, st: State, set_: nat, trial: nat, base: nat)
    requires st.Valid() && set_ >= 1 && |st.rem| == |words|
    ensures var S := |st.slots|; var i := HcrSchedule.Index(S, set_, base);
            if base < S && i < |st.rem| then
              var g := Segment(S, trial, base);
              && g < S
              && (BaseFits(words, st, set_, trial, base) <==>
                    VisitFits(words, st, g, i) && BaseFits(words, Step(st, g, i, Backward(set_)), set_, trial, base + 1))
            else BaseFits(words, st, set_, trial, base)
  {
    hide Step, Segment, HcrSchedule.Index, Backward, VisitFits;
  }

  lemma {:induction false} TrialsHoldExact(t: Tables, cbs: seq<nat>, d: Desk, set_: nat, trial: nat,
                                           st: State, fin: State, words: seq<Bits>)
    requires WellFormed(t) && AllCodewords(t, cbs, words) && set_ >= 1
    requires Match(d, st, fin, Backward(set_), words) && d.Valid() && st.Valid() && |cbs| == |d.done| && |words| == |st.rem|
    requires Extends(RunTrials(st, set_, trial), fin)
    ensures TrialsHold(t, cbs, d, set_, trial) <==> TrialsFit(words, st, set_, trial)
    decreases |d.segs| - trial
  {
    hide *;
    MatchSizes(d, st, fin, Backward(set_), words);
    TrialsUnfold(DecodedLength(t), cbs, d, set_, trial, st);
    TrialsCondition(t, cbs, d, words, st, set_, trial);
    if trial < |d.segs| {
      var next := RunBase(st, set_, trial, 0);
      RunTrialsExtends(next, set_, trial + 1);
      ExtendsTrans(next, RunTrials(next, set_, trial + 1), fin);
      BaseMatches(t, DecodedLength(t), cbs, d, set_, trial, 0, st, fin, words);
      BaseHoldsExact(t, cbs, d, set_, trial, 0, st, fin, words);
      TrialsHoldExact(t, cbs, AfterBase(DecodedLength(t), cbs, d, set_, trial, 0), set_, trial + 1, next, fin, words);
    }
  }

  lemma TrialsCondition(t: Tables, cbs: seq<nat>, d: Desk, words: seq<Bits>, st: State, set_: nat, trial: nat)
    requires WellFormed(t) && d.Valid() && st.Valid() && set_ >= 1
    requires |cbs| == |d.done| == |st.rem| == |words| && |d.segs| == |st.slots|
    ensures if trial < |d.segs| then
              && (TrialsHold(t, cbs, d, set_, trial) <==>
                    && BaseHolds(t, cbs, d, set_, trial, 0)
                    && TrialsHold(t, cbs, AfterBase(DecodedLength(t), cbs, d, set_, trial, 0), set_, trial + 1))
              && (TrialsFit(words, st, set_, trial) <==>
                    BaseFits(words, st, set_, trial, 0) && TrialsFit(words, RunBase(st, set_, trial, 0), set_, trial + 1))
            else TrialsHold(t, cbs, d, set_, trial) && TrialsFit(words, st, set_, trial)
  {
    hide BaseHolds, BaseFits, AfterBase, RunBase, WellFormed, DecodedLength;
  }

  /** On the segments of an encoder, the registers of step 2 hold exactly when its lengths fit. */
  lemma {:induction false} SetsHoldExact(t: Tables, cbs: seq<nat>, d: Desk, set_: nat, sets: nat,
                                         st: State, fin: State, words: seq<Bits>)
    requires WellFormed(t) && AllCodewords(t, cbs, words) && set_ >= 1
    requires Match(d, st, fin, Backward(set_), words) && d.Valid() && st.Valid() && |cbs| == |d.done| && |words| == |st.rem|
    requires Extends(RunSets(st, set_, sets), fin)
    ensures SetsHold(t, cbs, d, set_, sets) <==> SetsFit(words, st, set_, sets)
    decreases sets + 1 - set_
  {
    hide *;
    MatchSizes(d, st, fin, Backward(set_), words);
    SetsUnfold(DecodedLength(t), cbs, d, set_, sets, st);
    SetsCondition(t, cbs, d, words, st, set_, sets);
    if set_ <= sets {
      var next := RunTrials(st, set_, 0);
      RunSetsExtends(next, set_ + 1, sets);
      ExtendsTrans(next, RunSets(next, set_ + 1, sets), fin);
      TrialsMatch(t, DecodedLength(t), cbs, d, set_, 0, st, fin, words);
      TrialsHoldExact(t, cbs, d, set_, 0, st, fin, words);
      var e := AfterTrials(DecodedLength(t), cbs, d, set_, 0);
      TurnMatches(e, next, fin, Backward(set_), words);
      NextDirection(set_);
      SetsHoldExact(t, cbs, Turned(e), set_ + 1, sets, next, fin, words);
    }
  }

  lemma SetsCondition(t: Tables, cbs: seq<nat>, d: Desk, words: seq<Bits>, st: State, set_: nat, sets: nat)
    requires WellFormed(t) && d.Valid() && st.Valid() && set_ >= 1
    requires |cbs| == |d.done| == |st.rem| == |words| && |d.segs| == |st.slots|
    ensures if set_ <= sets then
              && (SetsHold(t, cbs, d, set_, sets) <==>
                    && TrialsHold(t, cbs, d, set_, 0)
                    && SetsHold(t, cbs, Turned(AfterTrials(DecodedLength(t), cbs, d, set_, 0)), set_ + 1, sets))
              && (SetsFit(words, st, set_, sets) <==>
                    TrialsFit(words, st, set_, 0) && SetsFit(words, RunTrials(st, set_, 0), set_ + 1, sets))
            else SetsHold(t, cbs, d, set_, sets) && SetsFit(words, st, set_, sets)
  {
    hide TrialsHold, TrialsFit, AfterTrials, RunTrials, Turned, WellFormed, DecodedLength;
  }

  // ----- a whole frame

  /**
    * What the registers ask of a frame: at most 63 bits behind each priority codeword, a last
    * leftover that survives its merge, and step 2 merges within 64 bits.
    */
  ghost predicate JobHolds(job: Job)
    requires job.Legal() && job.Segments() > 0 && job.PrioritiesFit()
  {
    && (forall g :: 0 <= g < job.Segments() ==> job.SlotSize(g) - |job.words[g]| <= 63)
    && (job.list.Before(job.Segments()) < job.len && job.Segments() < |job.list.cbs| ==> LastJoinHolds(job))
    && SetsFit(job.words[job.Segments()..], job.Layout(), 1, Sets(|job.list.cbs|, job.Segments()))
  }

  /** The leftover of the last segment, turned round, with or without the bits behind it. */
  ghost predicate LastJoinHolds(job: Job)
    requires job.Legal() && job.Segments() > 0 && job.PrioritiesFit()
  {
    var g := job.Segments() - 1;
    var buf, w, W := job.Encoded().slots[g].buf, |job.words[g]|, SegWidth(job.list.cbs[g], job.list.longest);
    w <= W <= |buf| && JoinHolds(Rev(buf[w..W]))
  }

  /** The decoder's registers hold what an encoder sends exactly if they hold what is asked of the frame. */
  lemma RegistersExact(job: Job, data: Marks)
    requires job.FrameFits() && job.CarriedBy(BitsOf(data))
    ensures |data| == job.len
    ensures RegistersHold(job.list, data) <==> JobHolds(job)
  {
    hide *;
    FrameParts(job);
    CarriedLength(job, data);
    SegmentsAre(job, data);
    LengthsExact(job, data);
    LastExact(job, data);
    StepTwoExact(job, data);
    BothConditions(job, data);
  }

  lemma LengthsExact(job: Job, data: Marks)
    requires job.FrameFits() && job.CarriedBy(BitsOf(data)) && |data| == job.len
    requires job.Legal() && job.Segments() > 0 && job.PrioritiesFit()
    requires job.Segments() == job.list.Segments(|data|)
    ensures (forall g :: 0 <= g < job.Segments() ==> PriorityHolds(job.list, data, g))
       <==> (forall g :: 0 <= g < job.Segments() ==> job.SlotSize(g) - |job.words[g]| <= 63)
  {
    hide *;
    FrameParts(job);
    forall g | 0 <= g < job.Segments()
      ensures PriorityHolds(job.list, data, g) <==> job.SlotSize(g) - |job.words[g]| <= 63
    {
      LengthExact(job, data, g);
    }
  }

  lemma LengthExact(job: Job, data: Marks, g: nat)
    requires job.FrameFits() && job.CarriedBy(BitsOf(data)) && |data| == job.len
    requires job.Legal() && job.Segments() > 0 && job.PrioritiesFit()
    requires g < job.Segments() == job.list.Segments(|data|)
    ensures PriorityHolds(job.list, data, g) <==> job.SlotSize(g) - |job.words[g]| <= 63
  {
    hide *;
    FrameParts(job);
    CodewordAt(job, g);
    PriorityIs(job, data, g);
    StartIs(job, data, g);
    SlotParts(job, BitsOf(data), g);
    PriorityHoldsIs(job.list, data, g);
  }

  lemma PriorityHoldsIs(list: Listing, data: Marks, g: nat)
    requires list.Legal() && g < list.Segments(|data|)
    ensures PriorityHolds(list, data, g) <==> !list.Priority(data, g).Wild? && |list.StartSegment(data, g)| <= 63
    ensures |BitsOf(list.StartSegment(data, g))| == |list.StartSegment(data, g)|
  {
    hide WellFormed, Listing.Priority, Listing.StartSegment;
  }

  lemma LastExact(job: Job, data: Marks)
    requires job.FrameFits() && job.CarriedBy(BitsOf(data)) && |data| == job.len
    requires job.Legal() && job.Segments() > 0 && job.PrioritiesFit()
    requires job.Segments() == job.list.Segments(|data|)
    ensures (job.list.Behind(data) != [] ==> JoinHolds(BitsOf(job.list.Leftover(data, job.Segments() - 1))))
       <==> (job.list.Before(job.Segments()) < job.len && job.Segments() < |job.list.cbs| ==> LastJoinHolds(job))
  {
    hide *;
    FrameParts(job);
    BehindLength(job.list, data);
    PriorityIs(job, data, job.Segments() - 1);
    LastJoinIs(job);
    SegmentsAre(job, data);
  }

  lemma LastJoinIs(job: Job)
    requires job.Legal() && job.Segments() > 0 && job.PrioritiesFit()
    ensures var g := job.Segments() - 1;
            var buf, w, W := job.Encoded().slots[g].buf, |job.words[g]|, SegWidth(job.list.cbs[g], job.list.longest);
            LastJoinHolds(job) <==> w <= W <= |buf| && JoinHolds(Rev(buf[w..W]))
  {
  }

  lemma StepTwoExact(job: Job, data: Marks)
    requires job.FrameFits() && job.CarriedBy(BitsOf(data)) && |data| == job.len
    requires job.Legal() && job.Segments() > 0 && job.PrioritiesFit()
    requires job.Segments() == job.list.Segments(|data|) <= |job.list.cbs|
    ensures var S := job.Segments(); var n := Sets(|job.list.cbs|, S);
            SetsHold(job.list.t, job.list.cbs[S..], job.list.StepOne(data), 1, n) <==> SetsFit(job.words[S..], job.Layout(), 1, n)
  {
    hide *;
    FrameParts(job);
    var S := job.Segments();
    var d, st, fin := job.list.StepOne(data), job.Layout(), job.Encoded();
    StepOneReceives(job, data);
    OthersAreCodewords(job);
    LayoutExtends(job);
    ReceivedMatches(job.list.t, job.list.cbs[S..], d, st, fin);
    MatchSizes(d, st, fin, true, st.rem);
    FirstDirection();
    EncodedIs(job);
    ExtendsSelf(fin);
    SetsHoldExact(job.list.t, job.list.cbs[S..], d, 1, Sets(|job.list.cbs|, S), st, fin, st.rem);
  }

  lemma BothConditions(job: Job, data: Marks)
    requires |data| == job.len && job.Legal() && job.Segments() > 0 && job.PrioritiesFit()
    requires job.Segments() == job.list.Segments(|data|) <= |job.list.cbs|
    ensures var S := job.Segments();
            RegistersHold(job.list, data) <==>
              && (forall g :: 0 <= g < S ==> PriorityHolds(job.list, data, g))
              && (job.list.Behind(data) != [] ==> JoinHolds(BitsOf(job.list.Leftover(data, S - 1))))
              && SetsHold(job.list.t, job.list.cbs[S..], job.list.StepOne(data), 1, Sets(|job.list.cbs|, S))
    ensures JobHolds(job) <==>
              && (forall g :: 0 <= g < job.Segments() ==> job.SlotSize(g) - |job.words[g]| <= 63)
              && (job.list.Before(job.Segments()) < job.len && job.Segments() < |job.list.cbs| ==> LastJoinHolds(job))
              && SetsFit(job.words[job.Segments()..], job.Layout(), 1, Sets(|job.list.cbs|, job.Segments()))
  {
    hide WellFormed, PriorityHolds, JoinHolds, SetsHold, SetsFit, LastJoinHolds, Listing.Leftover, Listing.StepOne, Listing.Behind;
  }
}
