/**
  * How far the registers of step 2 reach: exactly when every merge is right, and that
  * this is a matter of lengths alone.
  */
module HcrLimits {
  import opened Words
  import opened HcrWords
  import opened HcrSchedule
  import opened Hcr

  // ----- the merges that step 2 executes

  /** `done` stashed bits put in front of the `free` bits of a segment. */
  datatype Merge = Merge(done: nat, free: nat)

  /** A visit merges when part of the codeword is stashed, part is to come, and the segment is not empty. */
  function VisitMerges(words: seq<Bits>, st: State, g: nat, i: nat): seq<Merge>
    requires st.Valid() && |words| == |st.rem| && g < |st.slots| && i < |st.rem|
  {
    var done, free := |words[i]| - |st.rem[i]|, st.slots[g].Free();
    if done > 0 && st.rem[i] != [] && free > 0 then [Merge(done, free)] else []
  }

  function BaseMerges(words: seq<Bits>, st: State, set_: nat, trial: nat, base: nat): seq<Merge>
    requires st.Valid() && set_ >= 1 && |words| == |st.rem|
    decreases |st.slots| - base
  {
    var S := |st.slots|;
    var i := HcrSchedule.Index(S, set_, base);
    if base >= S || i >= |st.rem| then []
    else
      VisitMerges(words, st, Segment(S, trial, base), i)
        + BaseMerges(words, Step(st, Segment(S, trial, base), i, Backward(set_)), set_, trial, base + 1)
  }

  function TrialMerges(words: seq<Bits>, st: State, set_: nat, trial: nat): seq<Merge>
    requires st.Valid() && set_ >= 1 && |words| == |st.rem|
    decreases |st.slots| - trial
  {
    if trial >= |st.slots| then []
    else BaseMerges(words, st, set_, trial, 0) + TrialMerges(words, RunBase(st, set_, trial, 0), set_, trial + 1)
  }

  function SetMerges(words: seq<Bits>, st: State, set_: nat, sets: nat): seq<Merge>
    requires st.Valid() && set_ >= 1 && |words| == |st.rem|
    decreases sets + 1 - set_
  {
    if set_ > sets then []
    else TrialMerges(words, st, set_, 0) + SetMerges(words, RunTrials(st, set_, 0), set_ + 1, sets)
  }

  /** `concat_bits` is defined and right for all contents of these lengths. */
  ghost predicate MergeRight(m: Merge) {
    && m.done <= 64 && m.free <= 64 && m.free != 32
    && forall a: Register, b: Register ::
         a.Valid() && b.Valid() && a.len == m.done && b.len == m.free ==> ConcatRight(b, a)
  }

  lemma MergeExact(m: Merge)
    requires m.done > 0 && m.free > 0
    ensures MergeRight(m) <==> m.free != 32 && m.done + m.free <= 64
  {
    hide ConcatRight, Register.Valid;
    if m.done <= 64 && m.free <= 64 && m.free != 32 {
      ConcatExact(m.done, m.free);
    }
  }

  ghost predicate AllRight(ms: seq<Merge>) {
    forall k :: 0 <= k < |ms| ==> MergeRight(ms[k])
  }

  lemma AllRightConcat(a: seq<Merge>, b: seq<Merge>)
    ensures AllRight(a + b) <==> AllRight(a) && AllRight(b)
  {
    hide MergeRight;
    if AllRight(a + b) {
      forall k | 0 <= k < |a| ensures MergeRight(a[k]) {
        assert MergeRight((a + b)[k]);
      }
      forall k | 0 <= k < |b| ensures MergeRight(b[k]) {
        assert MergeRight((a + b)[|a| + k]);
      }
    }
  }

  /** A visit fits exactly when the merge it makes, if any, is right. */
  lemma VisitExact(words: seq<Bits>, st: State, g: nat, i: nat)
    requires st.Valid() && |words| == |st.rem| && g < |st.slots| && i < |st.rem|
    ensures VisitFits(words, st, g, i) <==> AllRight(VisitMerges(words, st, g, i))
  {
    hide MergeRight;
    var ms := VisitMerges(words, st, g, i);
    if ms != [] {
      MergeExact(ms[0]);
    }
  }

  lemma {:induction false} BaseExact(words: seq<Bits>, st: State, set_: nat, trial: nat, base: nat)
    requires st.Valid() && set_ >= 1 && |words| == |st.rem|
    ensures BaseFits(words, st, set_, trial, base) <==> AllRight(BaseMerges(words, st, set_, trial, base))
    decreases |st.slots| - base
  {
    hide VisitFits, VisitMerges, Step, AllRight, Segment, HcrSchedule.Index, Backward;
    var S := |st.slots|;
    var i := HcrSchedule.Index(S, set_, base);
    if base < S && i < |st.rem| {
      var g := Segment(S, trial, base);
      var next := Step(st, g, i, Backward(set_));
      VisitExact(words, st, g, i);
      BaseExact(words, next, set_, trial, base + 1);
      AllRightConcat(VisitMerges(words, st, g, i), BaseMerges(words, next, set_, trial, base + 1));
    } else {
      NoneWrong();
    }
  }

  lemma NoneWrong()
    ensures AllRight([])
  {
  }

  lemma {:induction false} TrialsExact(words: seq<Bits>, st: State, set_: nat, trial: nat)
    requires st.Valid() && set_ >= 1 && |words| == |st.rem|
    ensures TrialsFit(words, st, set_, trial) <==> AllRight(TrialMerges(words, st, set_, trial))
    decreases |st.slots| - trial
  {
    hide BaseFits, BaseMerges, RunBase, AllRight;
    if trial < |st.slots| {
      var next := RunBase(st, set_, trial, 0);
      BaseExact(words, st, set_, trial, 0);
      TrialsExact(words, next, set_, trial + 1);
      AllRightConcat(BaseMerges(words, st, set_, trial, 0), TrialMerges(words, next, set_, trial + 1));
    } else {
      NoneWrong();
    }
  }

  /** `SetsFit` says exactly that every merge which step 2 executes is defined and right for all contents. */
  lemma {:induction false} SetsExact(words: seq<Bits>, st: State, set_: nat, sets: nat)
    requires st.Valid() && set_ >= 1 && |words| == |st.rem|
    ensures SetsFit(words, st, set_, sets) <==> AllRight(SetMerges(words, st, set_, sets))
    decreases sets + 1 - set_
  {
    hide TrialsFit, TrialMerges, RunTrials, AllRight;
    if set_ <= sets {
      var next := RunTrials(st, set_, 0);
      TrialsExact(words, st, set_, 0);
      SetsExact(words, next, set_ + 1, sets);
      AllRightConcat(TrialMerges(words, st, set_, 0), SetMerges(words, next, set_ + 1, sets));
    } else {
      NoneWrong();
    }
  }

  // ----- only lengths matter

  predicate SameLengths(a: seq<Bits>, b: seq<Bits>) {
    |a| == |b| && forall i :: 0 <= i < |a| ==> |a[i]| == |b[i]|
  }

  ghost predicate SameSizes(st: State, st': State) {
    && st.Valid() && st'.Valid() && SameLengths(st.rem, st'.rem) && |st.slots| == |st'.slots|
    && forall g :: 0 <= g < |st.slots| ==> st.slots[g].Free() == st'.slots[g].Free()
  }

  lemma StepSizes(st: State, st': State, g: nat, i: nat, back: bool)
    requires SameSizes(st, st') && g < |st.slots| && i < |st.rem|
    ensures SameSizes(Step(st, g, i, back), Step(st', g, i, back))
  {
    FreeAfter(st, g, i, back);
    FreeAfter(st', g, i, back);
    hide Step;
  }

  lemma FreeAfter(st: State, g: nat, i: nat, back: bool)
    requires st.Valid() && g < |st.slots| && i < |st.rem|
    ensures var r, k := Step(st, g, i, back), Min(|st.rem[i]|, st.slots[g].Free());
            && (forall h :: 0 <= h < |st.slots| ==> r.slots[h].Free() == st.slots[h].Free() - if h == g then k else 0)
            && (forall j :: 0 <= j < |st.rem| ==> |r.rem[j]| == |st.rem[j]| - if j == i then k else 0)
  {
  }

  lemma {:induction false} BaseLengths(words: seq<Bits>, st: State, words': seq<Bits>, st': State, set_: nat, trial: nat, base: nat)
    requires SameLengths(words, words') && SameSizes(st, st') && set_ >= 1 && |words| == |st.rem|
    ensures BaseFits(words, st, set_, trial, base) <==> BaseFits(words', st', set_, trial, base)
    ensures SameSizes(RunBase(st, set_, trial, base), RunBase(st', set_, trial, base))
    decreases |st.slots| - base
  {
    hide Step, Segment, HcrSchedule.Index, Backward, SumRem, VisitFits;
    var S := |st.slots|;
    var i := HcrSchedule.Index(S, set_, base);
    if base < S && i < |st.rem| {
      var g := Segment(S, trial, base);
      StepSizes(st, st', g, i, Backward(set_));
      VisitLengths(words, st, words', st', g, i);
      BaseLengths(words, Step(st, g, i, Backward(set_)), words', Step(st', g, i, Backward(set_)), set_, trial, base + 1);
    }
  }

  lemma VisitLengths(words: seq<Bits>, st: State, words': seq<Bits>, st': State, g: nat, i: nat)
    requires SameLengths(words, words') && SameSizes(st, st') && |words| == |st.rem| && g < |st.slots| && i < |st.rem|
    ensures VisitFits(words, st, g, i) <==> VisitFits(words', st', g, i)
  {
  }

  lemma {:induction false} TrialLengths(words: seq<Bits>, st: State, words': seq<Bits>, st': State, set_: nat, trial: nat)
    requires SameLengths(words, words') && SameSizes(st, st') && set_ >= 1 && |words| == |st.rem|
    ensures TrialsFit(words, st, set_, trial) <==> TrialsFit(words', st', set_, trial)
    ensures SameSizes(RunTrials(st, set_, trial), RunTrials(st', set_, trial))
    decreases |st.slots| - trial
  {
    hide BaseFits, RunBase;
    if trial < |st.slots| {
      BaseLengths(words, st, words', st', set_, trial, 0);
      TrialLengths(words, RunBase(st, set_, trial, 0), words', RunBase(st', set_, trial, 0), set_, trial + 1);
    }
  }

  /** Whether a frame stays within the registers depends on lengths only. */
  lemma {:induction false} OnlyLengths(words: seq<Bits>, st: State, words': seq<Bits>, st': State, set_: nat, sets: nat)
    requires SameLengths(words, words') && SameSizes(st, st') && set_ >= 1 && |words| == |st.rem|
    ensures SetsFit(words, st, set_, sets) <==> SetsFit(words', st', set_, sets)
    decreases sets + 1 - set_
  {
    hide TrialsFit, RunTrials;
    if set_ <= sets {
      TrialLengths(words, st, words', st', set_, 0);
      OnlyLengths(words, RunTrials(st, set_, 0), words', RunTrials(st', set_, 0), set_ + 1, sets);
    }
  }
}
