/**
  Codeword reordering as section 8.5.3.3 of ISO/IEC 14496-3/Amd.1 lays it out, seen
  from the encoder: the non-priority codewords are written set by set and trial
  by trial into the free part of the segments, from the right in odd sets and
  from the left in even ones.
 */
module HcrSchedule {
  import Arith
  import opened Words

  /** A segment: its bits, and the free part [lo, hi) not yet written. */
  datatype Slot = Slot(buf: Bits, lo: nat, hi: nat) {
    predicate Valid() {
      lo <= hi <= |buf|
    }

    function Free(): nat
      requires Valid()
    {
      hi - lo
    }
  }

  /** The segments, and what is left to write of every codeword. */
  datatype State = State(slots: seq<Slot>, rem: seq<Bits>) {
    predicate Valid() {
      |slots| > 0 && forall g :: 0 <= g < |slots| ==> slots[g].Valid()
    }
  }

  function Min(a: nat, b: nat): nat {
    if a < b then a else b
  }

  /** Writes bits next to what is already there, at the right end or at the left end of the free part. */
  function Put(sl: Slot, bits: Bits, back: bool): (r: Slot)
    requires sl.Valid() && |bits| <= sl.Free()
    ensures r.Valid() && |r.buf| == |sl.buf|
  {
    var k := |bits|;
    if back then Slot(sl.buf[..sl.hi - k] + Rev(bits) + sl.buf[sl.hi..], sl.lo, sl.hi - k)
    else Slot(sl.buf[..sl.lo] + bits + sl.buf[sl.lo + k..], sl.lo + k, sl.hi)
  }

  /** As much of codeword i as fits goes into segment g. */
  function Step(st: State, g: nat, i: nat, back: bool): (r: State)
    requires st.Valid() && g < |st.slots| && i < |st.rem|
    ensures r.Valid() && |r.slots| == |st.slots| && |r.rem| == |st.rem|
  {
    var k := Min(|st.rem[i]|, st.slots[g].Free());
    State(st.slots[g := Put(st.slots[g], st.rem[i][..k], back)], st.rem[i := st.rem[i][k..]])
  }

  predicate Backward(set_: nat) {
    set_ % 2 == 1
  }

  /** One trial of a set, from position `base` on. Sets count from 1. */
  function RunBase(st: State, set_: nat, trial: nat, base: nat): (r: State)
    requires st.Valid() && set_ >= 1
    ensures r.Valid() && |r.slots| == |st.slots| && |r.rem| == |st.rem|
    decreases |st.slots| - base
  {
    var S := |st.slots|;
    var i := Index(S, set_, base);
    if base >= S || i >= |st.rem| then st
    else RunBase(Step(st, Segment(S, trial, base), i, Backward(set_)), set_, trial, base + 1)
  }

  function Segment(S: nat, trial: nat, base: nat): (g: nat)
    requires S > 0
    ensures g < S
  {
    (trial + base) % S
  }

  function Index(S: nat, set_: nat, base: nat): nat
    requires set_ >= 1
  {
    base + (set_ - 1) * S
  }

  function RunTrials(st: State, set_: nat, trial: nat): (r: State)
    requires st.Valid() && set_ >= 1
    ensures r.Valid() && |r.slots| == |st.slots| && |r.rem| == |st.rem|
    decreases |st.slots| - trial
  {
    if trial >= |st.slots| then st else RunTrials(RunBase(st, set_, trial, 0), set_, trial + 1)
  }

  function RunSets(st: State, set_: nat, sets: nat): (r: State)
    requires st.Valid() && set_ >= 1
    ensures r.Valid() && |r.slots| == |st.slots| && |r.rem| == |st.rem|
    decreases sets + 1 - set_
  {
    if set_ > sets then st else RunSets(RunTrials(st, set_, 0), set_ + 1, sets)
  }

  /** The number of sets the decoder runs for n codewords, priority codewords included. */
  function Sets(n: nat, S: nat): nat
    requires S > 0
  {
    n / S
  }

  /** A codeword has its turn in one set only, there at one position. */
  lemma OneTurn(S: nat, i: nat, set_: nat, base: nat)
    requires base < S && set_ >= 1
    ensures Index(S, set_, base) == i <==> set_ == i / S + 1 && base == i % S
  {
    var q, r := Arith.DivMod(i, S);
    Arith.MulComm(S, q);
    Arith.MulComm(S, set_ - 1);
    if Index(S, set_, base) == i {
      Arith.Unique(S, q, r, set_ - 1, base);
    }
  }

  /** In its set it starts with the segment of its own position and goes round to the right, once through all. */
  lemma GoesRound(S: nat, base: nat, trial: nat)
    requires base < S && trial < S
    ensures Segment(S, trial, base) == if base + trial < S then base + trial else base + trial - S
  {
    if base + trial < S {
      Arith.DivUnique(trial + base, S, 0, trial + base);
    } else {
      Arith.DivUnique(trial + base, S, 1, trial + base - S);
    }
  }

  lemma EachSegmentOnce(S: nat, base: nat, g: nat)
    requires base < S && g < S
    ensures exists trial :: 0 <= trial < S && Segment(S, trial, base) == g
    ensures forall trial, other :: 0 <= trial < other < S ==> Segment(S, trial, base) != Segment(S, other, base)
  {
    var trial := if base <= g then g - base else g + S - base;
    GoesRound(S, base, trial);
    assert Segment(S, trial, base) == g;
    forall t: nat, u: nat | t < u < S ensures Segment(S, t, base) != Segment(S, u, base) {
      GoesRound(S, base, t);
      GoesRound(S, base, u);
    }
  }

  /** Sets write from the right and from the left in turn, and there is one for each full row of segments. */
  lemma SetsAre(n: nat, S: nat, set_: nat)
    requires S > 0
    ensures Backward(1) && (Backward(set_ + 1) <==> !Backward(set_))
    ensures S * Sets(n, S) <= n < S * (Sets(n, S) + 1)
  {
    var q, r := Arith.DivMod(n, S);
    Arith.MulDist(S, q, 1);
  }

  // ----- what has been written stays

  /** sl' is a later stage of sl: the free part has shrunk, the rest is untouched. */
  ghost predicate SlotExtends(sl: Slot, sl': Slot) {
    && sl.Valid() && sl'.Valid() && |sl'.buf| == |sl.buf|
    && sl.lo <= sl'.lo && sl'.hi <= sl.hi
    && (forall j :: 0 <= j < sl.lo || sl.hi <= j < |sl.buf| ==> sl'.buf[j] == sl.buf[j])
  }

  ghost predicate Extends(st: State, st': State) {
    && |st'.slots| == |st.slots| && |st'.rem| == |st.rem|
    && (forall g :: 0 <= g < |st.slots| ==> SlotExtends(st.slots[g], st'.slots[g]))
    && (forall i :: 0 <= i < |st.rem| ==> st.rem[i] == [] ==> st'.rem[i] == [])
  }

  lemma PutExtends(sl: Slot, bits: Bits, back: bool)
    requires sl.Valid() && |bits| <= sl.Free()
    ensures SlotExtends(sl, Put(sl, bits, back))
  {
  }

  lemma StepExtends(st: State, g: nat, i: nat, back: bool)
    requires st.Valid() && g < |st.slots| && i < |st.rem|
    ensures Extends(st, Step(st, g, i, back))
  {
    var k := Min(|st.rem[i]|, st.slots[g].Free());
    hide Put, SlotExtends;
    PutExtends(st.slots[g], st.rem[i][..k], back);
    forall h | 0 <= h < |st.slots| && h != g ensures SlotExtends(st.slots[h], st.slots[h]) {
      SlotSame(st.slots[h]);
    }
  }

  lemma SlotSame(sl: Slot)
    requires sl.Valid()
    ensures SlotExtends(sl, sl)
  {
  }

  lemma ExtendsSelf(st: State)
    requires st.Valid()
    ensures Extends(st, st)
  {
    forall h | 0 <= h < |st.slots| ensures SlotExtends(st.slots[h], st.slots[h]) {
      SlotSame(st.slots[h]);
    }
  }

  lemma ExtendsTrans(a: State, b: State, c: State)
    requires Extends(a, b) && Extends(b, c)
    ensures Extends(a, c)
  {
    forall g | 0 <= g < |a.slots| ensures SlotExtends(a.slots[g], c.slots[g]) {
      assert SlotExtends(a.slots[g], b.slots[g]) && SlotExtends(b.slots[g], c.slots[g]);
    }
  }

  lemma {:induction false} RunBaseExtends(st: State, set_: nat, trial: nat, base: nat)
    requires st.Valid() && set_ >= 1
    ensures Extends(st, RunBase(st, set_, trial, base))
    decreases |st.slots| - base
  {
    hide Step, Extends;
    var S := |st.slots|;
    var i := Index(S, set_, base);
    if base >= S || i >= |st.rem| {
      ExtendsSelf(st);
    } else {
      var g := Segment(S, trial, base);
      var next := Step(st, g, i, Backward(set_));
      StepExtends(st, g, i, Backward(set_));
      RunBaseExtends(next, set_, trial, base + 1);
      ExtendsTrans(st, next, RunBase(next, set_, trial, base + 1));
    }
  }

  lemma {:induction false} RunTrialsExtends(st: State, set_: nat, trial: nat)
    requires st.Valid() && set_ >= 1
    ensures Extends(st, RunTrials(st, set_, trial))
    decreases |st.slots| - trial
  {
    hide RunBase, Extends;
    if trial >= |st.slots| {
      ExtendsSelf(st);
    } else {
      var next := RunBase(st, set_, trial, 0);
      RunBaseExtends(st, set_, trial, 0);
      RunTrialsExtends(next, set_, trial + 1);
      ExtendsTrans(st, next, RunTrials(next, set_, trial + 1));
    }
  }

  lemma {:induction false} RunSetsExtends(st: State, set_: nat, sets: nat)
    requires st.Valid() && set_ >= 1
    ensures Extends(st, RunSets(st, set_, sets))
    decreases sets + 1 - set_
  {
    hide RunTrials, Extends;
    if set_ > sets {
      ExtendsSelf(st);
    } else {
      var next := RunTrials(st, set_, 0);
      RunTrialsExtends(st, set_, 0);
      RunSetsExtends(next, set_ + 1, sets);
      ExtendsTrans(st, next, RunSets(next, set_ + 1, sets));
    }
  }

  // ----- reading back

  /** The bits [lo, hi) of a segment in the order a set reads them. */
  function View(buf: Bits, lo: nat, hi: nat, back: bool): (v: Bits)
    requires lo <= hi <= |buf|
    ensures |v| == hi - lo
  {
    if back then Rev(buf[lo..hi]) else buf[lo..hi]
  }

  /** In any later stage, the free part before a write reads as what was written, then the free part after it. */
  lemma PutView(sl: Slot, bits: Bits, back: bool, fin: Slot)
    requires sl.Valid() && |bits| <= sl.Free() && SlotExtends(Put(sl, bits, back), fin)
    ensures var q := Put(sl, bits, back);
            View(fin.buf, sl.lo, sl.hi, back) == bits + View(fin.buf, q.lo, q.hi, back)
  {
    hide *;
    PutBounds(sl, bits, back);
    PutSizes(sl, bits, back, fin);
    if back {
      forall j | 0 <= j < |bits| ensures fin.buf[sl.hi - 1 - j] == bits[j] {
        PutStays(sl, bits, back, fin, j);
      }
      ViewBackward(fin.buf, sl.lo, sl.hi, bits);
    } else {
      forall j | 0 <= j < |bits| ensures fin.buf[sl.lo + j] == bits[j] {
        PutStays(sl, bits, back, fin, j);
      }
      ViewForward(fin.buf, sl.lo, sl.hi, bits);
    }
  }

  lemma PutSizes(sl: Slot, bits: Bits, back: bool, fin: Slot)
    requires sl.Valid() && |bits| <= sl.Free() && SlotExtends(Put(sl, bits, back), fin)
    ensures sl.lo + |bits| <= sl.hi <= |fin.buf|
  {
  }

  /** Bit j of what was written is still there. */
  lemma PutStays(sl: Slot, bits: Bits, back: bool, fin: Slot, j: nat)
    requires sl.Valid() && |bits| <= sl.Free() && SlotExtends(Put(sl, bits, back), fin) && j < |bits|
    ensures var p := if back then sl.hi - 1 - j else sl.lo + j; p < |fin.buf| && fin.buf[p] == bits[j]
  {
    var q, p := Put(sl, bits, back), if back then sl.hi - 1 - j else sl.lo + j;
    PutBounds(sl, bits, back);
    PutAt(sl, bits, back, j);
    hide Put;
    assert !(q.lo <= p < q.hi);
  }

  lemma PutAt(sl: Slot, bits: Bits, back: bool, j: nat)
    requires sl.Valid() && |bits| <= sl.Free() && j < |bits|
    ensures var p := if back then sl.hi - 1 - j else sl.lo + j; var q := Put(sl, bits, back);
            p < |q.buf| && q.buf[p] == bits[j]
  {
  }

  lemma PutBounds(sl: Slot, bits: Bits, back: bool)
    requires sl.Valid() && |bits| <= sl.Free()
    ensures var q := Put(sl, bits, back);
            && q.lo == (if back then sl.lo else sl.lo + |bits|) && q.hi == (if back then sl.hi - |bits| else sl.hi)
            && |q.buf| == |sl.buf| && sl.lo <= sl.hi <= |sl.buf|
  {
  }

  lemma ViewForward(buf: Bits, lo: nat, hi: nat, bits: Bits)
    requires lo + |bits| <= hi <= |buf| && forall j :: 0 <= j < |bits| ==> buf[lo + j] == bits[j]
    ensures View(buf, lo, hi, false) == bits + View(buf, lo + |bits|, hi, false)
  {
    assert buf[lo..lo + |bits|] == bits;
  }

  lemma ViewBackward(buf: Bits, lo: nat, hi: nat, bits: Bits)
    requires lo + |bits| <= hi <= |buf| && forall j :: 0 <= j < |bits| ==> buf[hi - 1 - j] == bits[j]
    ensures View(buf, lo, hi, true) == bits + View(buf, lo, hi - |bits|, true)
  {
    var v, w := View(buf, lo, hi, true), bits + View(buf, lo, hi - |bits|, true);
    forall j | 0 <= j < |v| ensures v[j] == w[j] {
      assert v[j] == buf[hi - 1 - j];
    }
  }

  // ----- conservation

  function SumFree(slots: seq<Slot>): nat
    requires forall g :: 0 <= g < |slots| ==> slots[g].Valid()
  {
    if slots == [] then 0 else slots[0].Free() + SumFree(slots[1..])
  }

  function SumRem(rem: seq<Bits>): nat {
    if rem == [] then 0 else |rem[0]| + SumRem(rem[1..])
  }

  lemma {:induction false} SumFreeUpdate(slots: seq<Slot>, g: nat, sl: Slot)
    requires g < |slots| && sl.Valid() && forall h :: 0 <= h < |slots| ==> slots[h].Valid()
    ensures SumFree(slots[g := sl]) == SumFree(slots) - slots[g].Free() + sl.Free()
  {
    if g == 0 {
      assert slots[0 := sl][1..] == slots[1..];
    } else {
      SumFreeUpdate(slots[1..], g - 1, sl);
      assert slots[g := sl][1..] == slots[1..][g - 1 := sl];
    }
  }

  lemma {:induction false} SumRemUpdate(rem: seq<Bits>, i: nat, w: Bits)
    requires i < |rem|
    ensures SumRem(rem[i := w]) == SumRem(rem) - |rem[i]| + |w|
  {
    if i == 0 {
      assert rem[0 := w][1..] == rem[1..];
    } else {
      SumRemUpdate(rem[1..], i - 1, w);
      assert rem[i := w][1..] == rem[1..][i - 1 := w];
    }
  }

  lemma {:induction false} SumRemAtLeast(rem: seq<Bits>, i: nat)
    requires i < |rem|
    ensures SumRem(rem) >= |rem[i]|
  {
    if i > 0 {
      SumRemAtLeast(rem[1..], i - 1);
    }
  }

  lemma {:induction false} NoFree(slots: seq<Slot>)
    requires forall g :: 0 <= g < |slots| ==> slots[g].Valid() && slots[g].Free() == 0
    ensures SumFree(slots) == 0
  {
    if slots != [] {
      NoFree(slots[1..]);
    }
  }

  /** There is room for everything that is still to be written. */
  ghost predicate Fits(st: State)
    requires st.Valid()
  {
    SumRem(st.rem) <= SumFree(st.slots)
  }

  /** A write takes as much free space as it takes off the codeword. */
  lemma StepConserves(st: State, g: nat, i: nat, back: bool)
    requires st.Valid() && g < |st.slots| && i < |st.rem|
    ensures var r := Step(st, g, i, back);
            SumFree(st.slots) - SumRem(st.rem) == SumFree(r.slots) - SumRem(r.rem)
  {
    var k := Min(|st.rem[i]|, st.slots[g].Free());
    SumFreeUpdate(st.slots, g, Put(st.slots[g], st.rem[i][..k], back));
    SumRemUpdate(st.rem, i, st.rem[i][k..]);
  }

  lemma {:induction false} RunBaseConserves(st: State, set_: nat, trial: nat, base: nat)
    requires st.Valid() && set_ >= 1
    ensures var r := RunBase(st, set_, trial, base);
            SumFree(st.slots) - SumRem(st.rem) == SumFree(r.slots) - SumRem(r.rem)
    decreases |st.slots| - base
  {
    hide Step, SumFree, SumRem;
    var S := |st.slots|;
    var i := Index(S, set_, base);
    if base < S && i < |st.rem| {
      StepConserves(st, Segment(S, trial, base), i, Backward(set_));
      RunBaseConserves(Step(st, Segment(S, trial, base), i, Backward(set_)), set_, trial, base + 1);
    }
  }

  lemma {:induction false} RunTrialsConserves(st: State, set_: nat, trial: nat)
    requires st.Valid() && set_ >= 1
    ensures var r := RunTrials(st, set_, trial);
            SumFree(st.slots) - SumRem(st.rem) == SumFree(r.slots) - SumRem(r.rem)
    decreases |st.slots| - trial
  {
    hide RunBase, SumFree, SumRem;
    if trial < |st.slots| {
      RunBaseConserves(st, set_, trial, 0);
      RunTrialsConserves(RunBase(st, set_, trial, 0), set_, trial + 1);
    }
  }

  // ----- every codeword is finished within its own set

  /** Codeword i is written out, or segment g is full. */
  ghost predicate DoneOrFull(st: State, i: nat, g: nat)
    requires st.Valid()
  {
    i < |st.rem| && g < |st.slots| && (st.rem[i] == [] || st.slots[g].Free() == 0)
  }

  lemma DoneOrFullStays(a: State, b: State, i: nat, g: nat)
    requires a.Valid() && b.Valid() && Extends(a, b) && DoneOrFull(a, i, g)
    ensures DoneOrFull(b, i, g)
  {
    assert SlotExtends(a.slots[g], b.slots[g]);
  }

  lemma StepDone(st: State, g: nat, i: nat, back: bool)
    requires st.Valid() && g < |st.slots| && i < |st.rem|
    ensures DoneOrFull(Step(st, g, i, back), i, g)
  {
  }

  /** After one trial, each codeword of the set is written out or the segment it tried is full. */
  lemma {:induction false} TrialDone(st: State, set_: nat, trial: nat, base: nat, b: nat)
    requires st.Valid() && set_ >= 1 && base <= b < |st.slots| && Index(|st.slots|, set_, b) < |st.rem|
    ensures DoneOrFull(RunBase(st, set_, trial, base), Index(|st.slots|, set_, b), Segment(|st.slots|, trial, b))
    decreases |st.slots| - base
  {
    hide Step, Extends, DoneOrFull, Segment;
    var S := |st.slots|;
    var i := Index(S, set_, base);
    assert i <= Index(S, set_, b);
    var next := Step(st, Segment(S, trial, base), i, Backward(set_));
    if base == b {
      StepDone(st, Segment(S, trial, b), i, Backward(set_));
      RunBaseExtends(next, set_, trial, base + 1);
      DoneOrFullStays(next, RunBase(next, set_, trial, base + 1), i, Segment(S, trial, b));
    } else {
      TrialDone(next, set_, trial, base + 1, b);
    }
  }

  lemma {:induction false} TrialsDone(st: State, set_: nat, trial: nat, t: nat, b: nat)
    requires st.Valid() && set_ >= 1 && b < |st.slots| && Index(|st.slots|, set_, b) < |st.rem|
    requires trial <= t < |st.slots|
    ensures DoneOrFull(RunTrials(st, set_, trial), Index(|st.slots|, set_, b), Segment(|st.slots|, t, b))
    decreases |st.slots| - trial
  {
    hide RunBase, Extends, DoneOrFull, Segment, Index;
    var S := |st.slots|;
    var i, g := Index(S, set_, b), Segment(S, t, b);
    var next := RunBase(st, set_, trial, 0);
    if t == trial {
      TrialDone(st, set_, trial, 0, b);
      RunTrialsExtends(next, set_, trial + 1);
      DoneOrFullStays(next, RunTrials(next, set_, trial + 1), i, g);
    } else {
      TrialsDone(next, set_, trial + 1, t, b);
    }
  }

  /** In some trial, position b meets segment g. */
  lemma MeetsSegment(S: nat, b: nat, g: nat) returns (t: nat)
    requires b < S && g < S
    ensures t < S && Segment(S, t, b) == g
  {
    t := if g >= b then g - b else g + S - b;
    SmallMod(g, S);
    if g < b {
      SmallMod(g, S);
      assert t + b == g + S;
    }
  }

  lemma SmallMod(g: nat, S: nat)
    requires g < S
    ensures g % S == g && (g + S) % S == g
  {
  }

  /** If everything fits, a set leaves none of its codewords unfinished. */
  lemma SetFinishes(st: State, set_: nat, b: nat)
    requires st.Valid() && set_ >= 1 && Fits(st)
    requires b < |st.slots| && Index(|st.slots|, set_, b) < |st.rem|
    ensures RunTrials(st, set_, 0).rem[Index(|st.slots|, set_, b)] == []
    ensures Fits(RunTrials(st, set_, 0))
  {
    hide RunTrials, Index, SumFree, SumRem;
    var S, i := |st.slots|, Index(|st.slots|, set_, b);
    var r := RunTrials(st, set_, 0);
    RunTrialsConserves(st, set_, 0);
    if r.rem[i] != [] {
      forall g | 0 <= g < S ensures r.slots[g].Free() == 0 {
        var t := MeetsSegment(S, b, g);
        TrialsDone(st, set_, 0, t, b);
      }
      NoFree(r.slots);
      SumRemAtLeast(r.rem, i);
    }
  }

  /** The set and position of codeword i. */
  lemma SetOf(S: nat, i: nat, sets: nat, n: nat) returns (set_: nat, b: nat)
    requires S > 0 && i < n && sets == Sets(S + n, S)
    ensures 1 <= set_ <= sets && b < S && Index(S, set_, b) == i
  {
    set_, b := i / S + 1, i % S;
    assert i == S * (i / S) + i % S;
    SetCount(S, i, n);
  }

  lemma SetCount(S: nat, i: nat, n: nat)
    requires S > 0 && i < n
    ensures i / S + 1 <= (S + n) / S
  {
  }

  lemma {:induction false} RunSetsFinish(st: State, set_: nat, sets: nat, i: nat, target: nat, b: nat)
    requires st.Valid() && set_ >= 1 && Fits(st)
    requires set_ <= target <= sets && b < |st.slots| && i == Index(|st.slots|, target, b) < |st.rem|
    ensures RunSets(st, set_, sets).rem[i] == []
    decreases sets + 1 - set_
  {
    hide RunTrials, Index, Fits, Extends, Slot.Valid;
    var next := RunTrials(st, set_, 0);
    SetFits(st, set_);
    if set_ == target {
      SetFinishes(st, set_, b);
      RunSetsExtends(next, set_ + 1, sets);
      FinishedStays(next, RunSets(next, set_ + 1, sets), i);
    } else {
      RunSetsFinish(next, set_ + 1, sets, i, target, b);
    }
  }

  lemma SetFits(st: State, set_: nat)
    requires st.Valid() && set_ >= 1 && Fits(st)
    ensures Fits(RunTrials(st, set_, 0))
  {
    RunTrialsConserves(st, set_, 0);
  }

  lemma FinishedStays(a: State, b: State, i: nat)
    requires Extends(a, b) && i < |a.rem| && a.rem[i] == []
    ensures b.rem[i] == []
  {
  }

  /** The number of sets the decoder runs is enough to write everything that fits. */
  lemma AllFinish(st: State, sets: nat, i: nat)
    requires st.Valid() && Fits(st) && sets == Sets(|st.slots| + |st.rem|, |st.slots|) && i < |st.rem|
    ensures RunSets(st, 1, sets).rem[i] == []
  {
    hide RunSets, Fits;
    var target, b := SetOf(|st.slots|, i, sets, |st.rem|);
    RunSetsFinish(st, 1, sets, i, target, b);
  }
}
