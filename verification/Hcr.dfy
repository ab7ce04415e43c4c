/**
  What step 2 of `reordered_spectral_data` works on: codeword records, places in the
  spectrum, turned segments, and which visits of an encoder's frame one register can serve.
 */
module Hcr {
  import opened Words
  import opened HcrWords
  import opened Codewords
  import opened HcrSchedule

  /** `codeword_t` */
  datatype Codeword = Codeword(cb: nat, decoded: bool, spOffset: nat, bits: Register)

  /** For each non-priority codeword its codebook and its place in the spectrum. */
  datatype Plan = Plan(t: Tables, cbs: seq<nat>, sps: seq<nat>)

  ghost predicate IsCodeword(t: Tables, cb: nat, w: Bits)
    requires WellFormed(t)
  {
    IsSpectral(cb) && Decode(t, cb, w).Done? && Decode(t, cb, w).n == |w|
  }

  predicate Apart(a: nat, m: nat, b: nat, n: nat) {
    a + m <= b || b + n <= a
  }

  /** Codebooks in use, and for each codeword its own place in a spectrum of n lines. */
  ghost predicate GoodPlan(p: Plan, n: nat) {
    && WellFormed(p.t) && |p.cbs| == |p.sps|
    && (forall i :: 0 <= i < |p.cbs| ==> IsSpectral(p.cbs[i]) && p.sps[i] + Width(p.cbs[i]) <= n)
    && (forall i, j :: 0 <= i < j < |p.cbs| ==> Apart(p.sps[i], Width(p.cbs[i]), p.sps[j], Width(p.cbs[j])))
  }

  lemma NoBits(r: Register)
    ensures r.len == 0 ==> r.Content() == []
    ensures |r.Content()| == r.len
  {
  }

  // ----- what an encoder's frame asks of a register

  /** With `done` bits of a codeword stashed and some still to come, a register holds those of the segment too. */
  predicate HoldsBoth(done: int, rest: nat, free: nat) {
    done > 0 && rest > 0 && free > 0 ==> free != 32 && done + free <= 64
  }

  /** What one visit merges fits one register. */
  predicate VisitFits(words: seq<Bits>, st: State, g: nat, i: nat)
    requires st.Valid() && |words| == |st.rem| && g < |st.slots| && i < |st.rem|
  {
    HoldsBoth(|words[i]| - |st.rem[i]|, |st.rem[i]|, st.slots[g].Free())
  }

  // the same for a trial, a set and all sets; only the lengths matter

  predicate BaseFits(words: seq<Bits>, st: State, set_: nat, trial: nat, base: nat)
    requires st.Valid() && set_ >= 1 && |words| == |st.rem|
    decreases |st.slots| - base
  {
    var S := |st.slots|;
    var i := HcrSchedule.Index(S, set_, base);
    base >= S || i >= |st.rem| ||
    (VisitFits(words, st, Segment(S, trial, base), i)
     && BaseFits(words, Step(st, Segment(S, trial, base), i, Backward(set_)), set_, trial, base + 1))
  }

  predicate TrialsFit(words: seq<Bits>, st: State, set_: nat, trial: nat)
    requires st.Valid() && set_ >= 1 && |words| == |st.rem|
    decreases |st.slots| - trial
  {
    trial >= |st.slots| ||
    (BaseFits(words, st, set_, trial, 0) && TrialsFit(words, RunBase(st, set_, trial, 0), set_, trial + 1))
  }

  predicate SetsFit(words: seq<Bits>, st: State, set_: nat, sets: nat)
    requires st.Valid() && set_ >= 1 && |words| == |st.rem|
    decreases sets + 1 - set_
  {
    set_ > sets ||
    (TrialsFit(words, st, set_, 0) && SetsFit(words, RunTrials(st, set_, 0), set_ + 1, sets))
  }

  /** Free space only shrinks. */
  lemma StepFree(words: seq<Bits>, st: State, g: nat, i: nat, back: bool, m: nat)
    requires st.Valid() && g < |st.slots| && i < |st.rem| && |words| == |st.rem|
    requires forall h :: 0 <= h < |st.slots| ==> st.slots[h].Free() <= m
    ensures var r := Step(st, g, i, back);
            |r.rem| == |words| && forall h :: 0 <= h < |r.slots| ==> r.slots[h].Free() <= m
  {
  }

  ghost predicate Roomy(words: seq<Bits>, st: State) {
    && st.Valid() && |words| == |st.rem|
    && (forall i :: 0 <= i < |words| ==> |words[i]| <= 33)
    && (forall h :: 0 <= h < |st.slots| ==> st.slots[h].Free() <= 31)
  }

  lemma RoomyStep(words: seq<Bits>, st: State, g: nat, i: nat, back: bool)
    requires Roomy(words, st) && g < |st.slots| && i < |st.rem|
    ensures VisitFits(words, st, g, i) && Roomy(words, Step(st, g, i, back))
  {
    StepFree(words, st, g, i, back, 31);
    hide Step;
  }

  lemma {:induction false} RoomyBase(words: seq<Bits>, st: State, set_: nat, trial: nat, base: nat)
    requires Roomy(words, st) && set_ >= 1
    ensures BaseFits(words, st, set_, trial, base) && Roomy(words, RunBase(st, set_, trial, base))
    decreases |st.slots| - base
  {
    hide Step, VisitFits, Segment, HcrSchedule.Index;
    var i := HcrSchedule.Index(|st.slots|, set_, base);
    if base < |st.slots| && i < |st.rem| {
      RoomyStep(words, st, Segment(|st.slots|, trial, base), i, Backward(set_));
      RoomyBase(words, Step(st, Segment(|st.slots|, trial, base), i, Backward(set_)), set_, trial, base + 1);
    }
  }

  lemma {:induction false} RoomyTrials(words: seq<Bits>, st: State, set_: nat, trial: nat)
    requires Roomy(words, st) && set_ >= 1
    ensures TrialsFit(words, st, set_, trial) && Roomy(words, RunTrials(st, set_, trial))
    decreases |st.slots| - trial
  {
    hide RunBase, BaseFits;
    if trial < |st.slots| {
      RoomyBase(words, st, set_, trial, 0);
      RoomyTrials(words, RunBase(st, set_, trial, 0), set_, trial + 1);
    }
  }

  /** With leftovers of at most 31 bits and codewords of at most 33, every visit fits. */
  lemma {:induction false} ShortOnesFit(words: seq<Bits>, st: State, set_: nat, sets: nat)
    requires Roomy(words, st) && set_ >= 1
    ensures SetsFit(words, st, set_, sets)
    decreases sets + 1 - set_
  {
    hide RunTrials, TrialsFit;
    if set_ <= sets {
      RoomyTrials(words, st, set_, 0);
      ShortOnesFit(words, RunTrials(st, set_, 0), set_ + 1, sets);
    }
  }

  /** Decoding the first n bits of a codeword, followed by other bits only if it is complete. */
  lemma VisitOutcome(t: Tables, cb: nat, w: Bits, done: nat, k: nat, tail: Bits)
    requires WellFormed(t) && IsCodeword(t, cb, w) && done + k <= |w| && (tail != [] ==> done + k == |w|)
    ensures Decode(t, cb, w[..done + k] + tail) == if done + k == |w| then Decode(t, cb, w) else Short
  {
    hide Decode, WellFormed;
    if done + k == |w| {
      assert w[..done + k] == w;
      CodewordDecodes(t, cb, w, tail);
    } else {
      assert w[..done + k] + tail == w[..done + k];
      ProperPrefixIsShort(t, cb, w, done + k);
    }
  }

  lemma SlotExtendsBounds(a: Slot, b: Slot)
    requires SlotExtends(a, b)
    ensures a.Valid() && b.Valid() && |a.buf| == |b.buf|
  {
  }

  lemma ExtendsBounds(a: State, b: State)
    requires Extends(a, b)
    ensures |b.slots| == |a.slots| && |b.rem| == |a.rem|
    ensures forall h :: 0 <= h < |a.slots| ==> a.slots[h].lo <= a.slots[h].hi <= |b.slots[h].buf|
  {
    forall h | 0 <= h < |a.slots| ensures a.slots[h].lo <= a.slots[h].hi <= |b.slots[h].buf| {
      assert SlotExtends(a.slots[h], b.slots[h]);
    }
  }

  lemma Untouched(sp: seq<int>, sp': seq<int>, at: nat, n: nat, b: nat, m: nat)
    requires |sp'| == |sp| && at + n <= |sp| && b + m <= |sp| && Apart(at, n, b, m)
    requires sp'[..at] == sp[..at] && sp'[at + n..] == sp[at + n..]
    ensures sp'[b..b + m] == sp[b..b + m]
  {
    forall j | b <= j < b + m ensures sp'[j] == sp[j] {
      if j < at {
        assert sp'[..at][j] == sp[..at][j];
      } else {
        assert sp'[at + n..][j - (at + n)] == sp[at + n..][j - (at + n)];
      }
    }
  }

  // ----- step 2

  /** Spectral lines that belong to no codeword of the plan keep their values. */
  ghost predicate Frame(p: Plan, sp: seq<int>, sp': seq<int>) {
    && |sp'| == |sp| && |p.sps| == |p.cbs|
    && forall b, m :: 0 <= b <= b + m <= |sp| && ClearOf(p, b, m) ==> sp'[b..b + m] == sp[b..b + m]
  }

  ghost predicate ClearOf(p: Plan, b: nat, m: nat)
    requires |p.sps| == |p.cbs|
  {
    forall i :: 0 <= i < |p.sps| ==> Apart(p.sps[i], Width(p.cbs[i]), b, m)
  }

  /** `rewrev_bits` on every segment turns the reading direction round. */
  method ReverseSegments(segment: array<Register>, n: nat)
    requires n <= segment.Length && forall g :: 0 <= g < n ==> segment[g].Valid() && segment[g].len <= 63
    modifies segment
    ensures forall g :: 0 <= g < n ==>
              && segment[g].Valid() && segment[g].len == old(segment[g].len)
              && segment[g].Content() == Rev(old(segment[g].Content()))
    ensures segment[n..] == old(segment[n..])
  {
    hide Register.Content, RewrevBits;
    for i := 0 to n
      invariant forall g :: 0 <= g < i ==>
                  && segment[g].Valid() && segment[g].len == old(segment[g].len)
                  && segment[g].Content() == Rev(old(segment[g].Content()))
      invariant forall g :: i <= g < segment.Length ==> segment[g] == old(segment[g])
    {
      RewrevContent(segment[i]);
      NoBits(segment[i]);
      segment[i] := RewrevBits(segment[i]);
      NoBits(segment[i]);
    }
  }

  lemma ViewTurn(buf: Bits, lo: nat, hi: nat, back: bool)
    requires lo <= hi <= |buf|
    ensures View(buf, lo, hi, !back) == Rev(View(buf, lo, hi, back))
  {
  }

  lemma FrameSelf(p: Plan, sp: seq<int>)
    requires |p.sps| == |p.cbs|
    ensures Frame(p, sp, sp)
  {
  }

  lemma FrameTrans(p: Plan, a: seq<int>, b: seq<int>, c: seq<int>)
    requires Frame(p, a, b) && Frame(p, b, c)
    ensures Frame(p, a, c)
  {
  }

  lemma CodewordNotEmpty(t: Tables, cb: nat, w: Bits)
    requires WellFormed(t) && IsCodeword(t, cb, w)
    ensures w != []
  {
  }
}
