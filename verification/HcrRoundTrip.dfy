/**
  * The round trip of codeword reordering on lists of bits, where nothing can overflow:
  * whatever fits the segments, step 2 recovers every codeword, each in its own set.
  */
module HcrRoundTrip {
  import opened Words
  import opened Codewords
  import opened HcrSchedule
  import opened Hcr
  import opened HcrConservation

  /** The codewords and their codebooks. */
  ghost predicate AllCodewords(t: Tables, cbs: seq<nat>, words: seq<Bits>)
    requires WellFormed(t)
  {
    |cbs| == |words| && forall i :: 0 <= i < |words| ==> IsCodeword(t, cbs[i], words[i])
  }

  // ----- decoder and encoder agree

  /** Codeword i of the desk when rem of w is still to be read. */
  ghost predicate HasRead(d: Desk, i: nat, w: Bits, rem: Bits)
    requires d.Valid() && i < |d.done|
  {
    && |rem| <= |w| && rem == w[|w| - |rem|..]
    && d.done[i] == (rem == [])
    && (if d.done[i] then BitsOf(d.used[i]) == w else BitsOf(d.stash[i]) == w[..|w| - |rem|])
  }

  /** The segments read as what the encoder will have written into the free parts. */
  ghost predicate SegmentsMatch(d: Desk, st: State, fin: State, back: bool)
    requires d.Valid()
  {
    && Extends(st, fin) && |d.segs| == |st.slots|
    && forall g :: 0 <= g < |d.segs| ==> SegmentMatches(d, st, fin, back, g)
  }

  ghost predicate SegmentMatches(d: Desk, st: State, fin: State, back: bool, g: nat)
  {
    && g < |d.segs| && g < |st.slots| && g < |fin.slots|
    && st.slots[g].lo <= st.slots[g].hi <= |fin.slots[g].buf|
    && BitsOf(d.segs[g]) == View(fin.slots[g].buf, st.slots[g].lo, st.slots[g].hi, back)
  }

  ghost predicate WordsMatch(d: Desk, st: State, words: seq<Bits>)
    requires d.Valid()
  {
    && |d.done| == |st.rem| == |words|
    && forall i :: 0 <= i < |words| ==> HasRead(d, i, words[i], st.rem[i])
  }

  ghost predicate Match(d: Desk, st: State, fin: State, back: bool, words: seq<Bits>) {
    d.Valid() && st.Valid() && SegmentsMatch(d, st, fin, back) && WordsMatch(d, st, words)
  }

  // ----- one visit

  /** What segment g reads as before a step of the encoder and after it. */
  lemma ReadsOn(st: State, fin: State, g: nat, i: nat, back: bool) returns (k: nat, tail: Bits)
    requires st.Valid() && g < |st.slots| && i < |st.rem| && Extends(st, fin) && Extends(Step(st, g, i, back), fin)
    ensures var sl, q := st.slots[g], Step(st, g, i, back).slots[g];
            && k == Min(|st.rem[i]|, sl.Free()) && q.lo <= q.hi <= |fin.slots[g].buf| && sl.lo <= sl.hi <= |fin.slots[g].buf|
            && tail == View(fin.slots[g].buf, q.lo, q.hi, back)
            && View(fin.slots[g].buf, sl.lo, sl.hi, back) == st.rem[i][..k] + tail
            && |tail| == sl.Free() - k
  {
    k := Min(|st.rem[i]|, st.slots[g].Free());
    var q := Put(st.slots[g], st.rem[i][..k], back);
    hide Put, SlotExtends, View;
    assert SlotExtends(Step(st, g, i, back).slots[g], fin.slots[g]);
    SlotExtendsBounds(q, fin.slots[g]);
    SlotExtendsBounds(st.slots[g], fin.slots[g]);
    tail := View(fin.slots[g].buf, q.lo, q.hi, back);
    PutView(st.slots[g], st.rem[i][..k], back, fin.slots[g]);
  }

  /** The two lists that one visit changes: nothing left of the codeword, nothing in the segment, or an attempt. */
  lemma VisitReads(t: Tables, cbs: seq<nat>, d: Desk, g: nat, i: nat, w: Bits, rem: Bits, k: nat, tail: Bits)
    requires WellFormed(t) && d.Valid() && |cbs| == |d.done| && g < |d.segs| && i < |d.done|
    requires IsCodeword(t, cbs[i], w) && HasRead(d, i, w, rem)
    requires k <= |rem| && BitsOf(d.segs[g]) == rem[..k] + tail && (k < |rem| ==> tail == [])
    ensures var r := Visited(DecodedLength(t), cbs, d, g, i);
            HasRead(r, i, w, rem[k..]) && BitsOf(r.segs[g]) == tail
  {
    hide Decode, WellFormed;
    var r := Visited(DecodedLength(t), cbs, d, g, i);
    if d.done[i] {
      assert rem[..k] + tail == tail && rem[k..] == [];
    } else if d.segs[g] == [] {
      assert rem[..k] + tail == [] && rem[k..] == rem;
    } else {
      var all, done := d.stash[i] + d.segs[g], |w| - |rem|;
      BitsOfConcat(d.stash[i], d.segs[g]);
      assert BitsOf(all) == w[..done + k] + tail by {
        assert w[done..][..k] == rem[..k];
        assert w[..done] + rem[..k] == w[..done + k];
      }
      VisitOutcome(t, cbs[i], w, done, k, tail);
      AttemptReads(t, cbs, d, g, i, w, rem, k, tail);
    }
  }

  lemma AttemptReads(t: Tables, cbs: seq<nat>, d: Desk, g: nat, i: nat, w: Bits, rem: Bits, k: nat, tail: Bits)
    requires WellFormed(t) && d.Valid() && |cbs| == |d.done| && g < |d.segs| && i < |d.done|
    requires IsCodeword(t, cbs[i], w) && HasRead(d, i, w, rem) && !d.done[i] && d.segs[g] != []
    requires k <= |rem| && (k < |rem| ==> tail == [])
    requires var all := d.stash[i] + d.segs[g];
             && BitsOf(all) == w[..|w| - |rem| + k] + tail
             && Decode(t, cbs[i], BitsOf(all)) == if k == |rem| then Decode(t, cbs[i], w) else Short
    ensures var r := Visited(DecodedLength(t), cbs, d, g, i);
            HasRead(r, i, w, rem[k..]) && BitsOf(r.segs[g]) == tail
  {
    hide Decode, WellFormed;
    var all := d.stash[i] + d.segs[g];
    if k == |rem| {
      BitsOfParts(all, |w|);
      assert w[..|w|] + tail == w + tail;
    } else {
      assert w[..|w| - |rem| + k] + tail == w[..|w| - |rem| + k];
      assert rem[k..] == w[|w| - |rem[k..]|..];
    }
  }

  lemma VisitedElsewhere(takes: Taker, cbs: seq<nat>, d: Desk, g: nat, i: nat)
    requires d.Valid() && |cbs| == |d.done| && g < |d.segs| && i < |d.done|
    ensures var r := Visited(takes, cbs, d, g, i);
            && (forall h :: 0 <= h < |d.segs| && h != g ==> r.segs[h] == d.segs[h])
            && (forall j :: 0 <= j < |d.done| && j != i ==>
                  r.done[j] == d.done[j] && r.used[j] == d.used[j] && r.stash[j] == d.stash[j])
  {
  }

  lemma StepElsewhere(st: State, g: nat, i: nat, back: bool)
    requires st.Valid() && g < |st.slots| && i < |st.rem|
    ensures var r, k := Step(st, g, i, back), Min(|st.rem[i]|, st.slots[g].Free());
            && (forall h :: 0 <= h < |st.slots| && h != g ==> r.slots[h] == st.slots[h])
            && (forall j :: 0 <= j < |st.rem| && j != i ==> r.rem[j] == st.rem[j])
            && r.rem[i] == st.rem[i][k..]
  {
    hide Put;
  }

  /** A visit of the decoder follows a step of the encoder. */
  lemma VisitMatches(t: Tables, cbs: seq<nat>, d: Desk, g: nat, i: nat, st: State, fin: State, back: bool, words: seq<Bits>)
    requires WellFormed(t) && AllCodewords(t, cbs, words) && Match(d, st, fin, back, words)
    requires g < |st.slots| && i < |st.rem| && Extends(Step(st, g, i, back), fin)
    ensures Match(Visited(DecodedLength(t), cbs, d, g, i), Step(st, g, i, back), fin, back, words)
  {
    hide Visited, HasRead, Step, Extends, DecodedLength, IsCodeword, Decode, WellFormed, View;
    var r, next := Visited(DecodedLength(t), cbs, d, g, i), Step(st, g, i, back);
    var k, tail := ReadsOn(st, fin, g, i, back);
    assert SegmentMatches(d, st, fin, back, g);
    VisitReads(t, cbs, d, g, i, words[i], st.rem[i], k, tail);
    VisitedElsewhere(DecodedLength(t), cbs, d, g, i);
    StepElsewhere(st, g, i, back);
    ExtendsBounds(next, fin);
    forall h | 0 <= h < |r.segs| ensures SegmentMatches(r, next, fin, back, h) {
      assert SegmentMatches(d, st, fin, back, h);
    }
    forall j | 0 <= j < |words| ensures HasRead(r, j, words[j], next.rem[j]) {
      if j != i {
        StillRead(d, r, j, words[j], st.rem[j]);
      }
    }
  }

  lemma StillRead(d: Desk, r: Desk, j: nat, w: Bits, rem: Bits)
    requires d.Valid() && r.Valid() && j < |d.done| == |r.done| && HasRead(d, j, w, rem)
    requires r.done[j] == d.done[j] && r.used[j] == d.used[j] && r.stash[j] == d.stash[j]
    ensures HasRead(r, j, w, rem)
  {
  }

  // ----- a trial, a set, all sets

  lemma {:induction false} BaseMatches(t: Tables, takes: Taker, cbs: seq<nat>, d: Desk, set_: nat, trial: nat, base: nat,
                                       st: State, fin: State, words: seq<Bits>)
    requires WellFormed(t) && takes == DecodedLength(t) && AllCodewords(t, cbs, words) && set_ >= 1
    requires Match(d, st, fin, Backward(set_), words) && |cbs| == |d.done|
    requires Extends(RunBase(st, set_, trial, base), fin)
    ensures Match(AfterBase(takes, cbs, d, set_, trial, base), RunBase(st, set_, trial, base), fin, Backward(set_), words)
    decreases |d.segs| - base
  {
    hide *;
    MatchSizes(d, st, fin, Backward(set_), words);
    BaseUnfolds(takes, cbs, d, set_, trial, base, st);
    var S := |d.segs|;
    var i := HcrSchedule.Index(S, set_, base);
    if base < S && i < |d.done| {
      var g := Segment(S, trial, base);
      var next := Step(st, g, i, Backward(set_));
      OneVisit(t, takes, cbs, d, g, i, set_, trial, base, st, fin, words, next);
      BaseMatches(t, takes, cbs, Visited(takes, cbs, d, g, i), set_, trial, base + 1, next, fin, words);
    }
  }

  lemma OneVisit(t: Tables, takes: Taker, cbs: seq<nat>, d: Desk, g: nat, i: nat, set_: nat, trial: nat, base: nat,
                 st: State, fin: State, words: seq<Bits>, next: State)
    requires WellFormed(t) && takes == DecodedLength(t) && AllCodewords(t, cbs, words) && set_ >= 1
    requires Match(d, st, fin, Backward(set_), words) && |cbs| == |d.done|
    requires g < |st.slots| && i < |st.rem| && next == Step(st, g, i, Backward(set_))
    requires Extends(RunBase(next, set_, trial, base + 1), fin)
    ensures g < |d.segs| && i < |d.done|
    ensures Match(Visited(takes, cbs, d, g, i), next, fin, Backward(set_), words)
  {
    MatchSizes(d, st, fin, Backward(set_), words);
    hide *;
    RunBaseExtends(next, set_, trial, base + 1);
    ExtendsTrans(next, RunBase(next, set_, trial, base + 1), fin);
    VisitMatches(t, cbs, d, g, i, st, fin, Backward(set_), words);
  }

  /** One more visit of a trial, for decoder and encoder. */
  lemma BaseUnfolds(takes: Taker, cbs: seq<nat>, d: Desk, set_: nat, trial: nat, base: nat, st: State)
    requires d.Valid() && st.Valid() && set_ >= 1 && |cbs| == |d.done| == |st.rem| && |d.segs| == |st.slots|
    ensures var S := |d.segs|; var i := HcrSchedule.Index(S, set_, base);
            if base < S && i < |d.done| then
              var g := Segment(S, trial, base);
              && AfterBase(takes, cbs, d, set_, trial, base)
                 == AfterBase(takes, cbs, Visited(takes, cbs, d, g, i), set_, trial, base + 1)
              && RunBase(st, set_, trial, base) == RunBase(Step(st, g, i, Backward(set_)), set_, trial, base + 1)
            else AfterBase(takes, cbs, d, set_, trial, base) == d && RunBase(st, set_, trial, base) == st
  {
    hide Visited, Step, Segment, HcrSchedule.Index, Backward;
  }

  lemma MatchSizes(d: Desk, st: State, fin: State, back: bool, words: seq<Bits>)
    requires Match(d, st, fin, back, words)
    ensures d.Valid() && st.Valid() && |d.segs| == |st.slots| && |d.done| == |st.rem| == |words|
  {
  }

  lemma {:induction false} TrialsMatch(t: Tables, takes: Taker, cbs: seq<nat>, d: Desk, set_: nat, trial: nat,
                                       st: State, fin: State, words: seq<Bits>)
    requires WellFormed(t) && takes == DecodedLength(t) && AllCodewords(t, cbs, words) && set_ >= 1
    requires Match(d, st, fin, Backward(set_), words) && |cbs| == |d.done|
    requires Extends(RunTrials(st, set_, trial), fin)
    ensures Match(AfterTrials(takes, cbs, d, set_, trial), RunTrials(st, set_, trial), fin, Backward(set_), words)
    decreases |d.segs| - trial
  {
    hide *;
    MatchSizes(d, st, fin, Backward(set_), words);
    TrialsUnfold(takes, cbs, d, set_, trial, st);
    if trial < |d.segs| {
      var next := RunBase(st, set_, trial, 0);
      RunTrialsExtends(next, set_, trial + 1);
      ExtendsTrans(next, RunTrials(next, set_, trial + 1), fin);
      BaseMatches(t, takes, cbs, d, set_, trial, 0, st, fin, words);
      TrialsMatch(t, takes, cbs, AfterBase(takes, cbs, d, set_, trial, 0), set_, trial + 1, next, fin, words);
    }
  }

  /** One more trial of a set, for decoder and encoder. */
  lemma TrialsUnfold(takes: Taker, cbs: seq<nat>, d: Desk, set_: nat, trial: nat, st: State)
    requires d.Valid() && st.Valid() && set_ >= 1 && |cbs| == |d.done| == |st.rem| && |d.segs| == |st.slots|
    ensures if trial < |d.segs| then
              && AfterTrials(takes, cbs, d, set_, trial)
                 == AfterTrials(takes, cbs, AfterBase(takes, cbs, d, set_, trial, 0), set_, trial + 1)
              && RunTrials(st, set_, trial) == RunTrials(RunBase(st, set_, trial, 0), set_, trial + 1)
            else AfterTrials(takes, cbs, d, set_, trial) == d && RunTrials(st, set_, trial) == st
  {
    hide AfterBase, RunBase;
  }

  /** Turning all segments round turns the reading direction. */
  lemma TurnMatches(d: Desk, st: State, fin: State, back: bool, words: seq<Bits>)
    requires Match(d, st, fin, back, words)
    ensures Match(Turned(d), st, fin, !back, words)
  {
    hide HasRead, Extends, BitsOf, Reverse, View;
    var r := Turned(d);
    var turned := !back;
    forall g | 0 <= g < |r.segs| ensures SegmentMatches(r, st, fin, turned, g) {
      assert SegmentMatches(d, st, fin, back, g);
      BitsOfReverse(d.segs[g]);
      ViewTurn(fin.slots[g].buf, st.slots[g].lo, st.slots[g].hi, back);
    }
    forall j | 0 <= j < |words| ensures HasRead(r, j, words[j], st.rem[j]) {
      StillRead(d, r, j, words[j], st.rem[j]);
    }
  }

  /** The reading direction after the sets up to `sets`. */
  predicate DirectionAfter(set_: nat, sets: nat) {
    Backward(if set_ <= sets then sets + 1 else set_)
  }

  lemma {:induction false} SetsMatch(t: Tables, takes: Taker, cbs: seq<nat>, d: Desk, set_: nat, sets: nat,
                                     st: State, fin: State, words: seq<Bits>)
    requires WellFormed(t) && takes == DecodedLength(t) && AllCodewords(t, cbs, words) && set_ >= 1
    requires Match(d, st, fin, Backward(set_), words) && |cbs| == |d.done|
    requires Extends(RunSets(st, set_, sets), fin)
    ensures Match(AfterSets(takes, cbs, d, set_, sets), RunSets(st, set_, sets), fin, DirectionAfter(set_, sets), words)
    decreases sets + 1 - set_
  {
    hide *;
    MatchSizes(d, st, fin, Backward(set_), words);
    SetsUnfold(takes, cbs, d, set_, sets, st);
    LastDirection(set_, sets);
    if set_ <= sets {
      var next := RunTrials(st, set_, 0);
      RunSetsExtends(next, set_ + 1, sets);
      ExtendsTrans(next, RunSets(next, set_ + 1, sets), fin);
      TrialsMatch(t, takes, cbs, d, set_, 0, st, fin, words);
      var e := AfterTrials(takes, cbs, d, set_, 0);
      TurnMatches(e, next, fin, Backward(set_), words);
      NextDirection(set_);
      SetsMatch(t, takes, cbs, Turned(e), set_ + 1, sets, next, fin, words);
    }
  }

  /** One more set, for decoder and encoder. */
  lemma SetsUnfold(takes: Taker, cbs: seq<nat>, d: Desk, set_: nat, sets: nat, st: State)
    requires d.Valid() && st.Valid() && set_ >= 1 && |cbs| == |d.done| == |st.rem| && |d.segs| == |st.slots|
    ensures if set_ <= sets then
              && AfterSets(takes, cbs, d, set_, sets)
                 == AfterSets(takes, cbs, Turned(AfterTrials(takes, cbs, d, set_, 0)), set_ + 1, sets)
              && RunSets(st, set_, sets) == RunSets(RunTrials(st, set_, 0), set_ + 1, sets)
            else AfterSets(takes, cbs, d, set_, sets) == d && RunSets(st, set_, sets) == st
  {
    hide AfterTrials, RunTrials, Turned;
  }

  lemma LastDirection(set_: nat, sets: nat)
    ensures if set_ <= sets then DirectionAfter(set_, sets) == DirectionAfter(set_ + 1, sets)
            else DirectionAfter(set_, sets) == Backward(set_)
  {
    hide Backward;
  }

  lemma NextDirection(set_: nat)
    ensures Backward(set_ + 1) == !Backward(set_)
  {
  }

  // ----- the round trip

  /** A desk on which nothing has been read, with the segments that the encoder leaves. */
  ghost predicate Received(d: Desk, st: State, fin: State) {
    && d.Valid() && |d.segs| == |st.slots| && |d.done| == |st.rem|
    && (forall i :: 0 <= i < |d.done| ==> !d.done[i] && d.stash[i] == [] && d.used[i] == [])
    && (forall g :: 0 <= g < |d.segs| ==> SegmentMatches(d, st, fin, true, g))
  }

  lemma ReceivedMatches(t: Tables, cbs: seq<nat>, d: Desk, st: State, fin: State)
    requires WellFormed(t) && AllCodewords(t, cbs, st.rem) && st.Valid() && Extends(st, fin) && Received(d, st, fin)
    ensures Match(d, st, fin, true, st.rem)
  {
    hide Decode, WellFormed, Extends, SegmentMatches;
    forall i | 0 <= i < |st.rem| ensures HasRead(d, i, st.rem[i], st.rem[i]) {
      assert IsCodeword(t, cbs[i], st.rem[i]);
      CodewordNotEmpty(t, cbs[i], st.rem[i]);
    }
  }

  /**
    * The round trip of step 2, for any prefix-free tables, any number of segments and any
    * codewords that fit into them: from the segments that the encoder of section 8.5.3.3
    * leaves, every codeword is decoded from exactly its own bits.
    */
  lemma RoundTrip(t: Tables, cbs: seq<nat>, d: Desk, st: State, i: nat)
    requires WellFormed(t) && st.Valid() && AllCodewords(t, cbs, st.rem) && Fits(st) && i < |st.rem|
    requires Received(d, st, RunSets(st, 1, Sets(|st.slots| + |st.rem|, |st.slots|)))
    ensures var r := AfterSets(DecodedLength(t), cbs, d, 1, Sets(|st.slots| + |st.rem|, |st.slots|));
            r.done[i] && BitsOf(r.used[i]) == st.rem[i]
  {
    var sets := Sets(|st.slots| + |st.rem|, |st.slots|);
    var fin := RunSets(st, 1, sets);
    RunSetsExtends(st, 1, sets);
    ReceivedMatches(t, cbs, d, st, fin);
    MatchSizes(d, st, fin, true, st.rem);
    hide Match, Extends, DecodedLength, AllCodewords, WellFormed, AfterSets, RunSets, Fits, DirectionAfter;
    ExtendsSelf(fin);
    var takes := DecodedLength(t);
    SetsMatch(t, takes, cbs, d, 1, sets, st, fin, st.rem);
    AllFinish(st, sets, i);
    ReadOut(AfterSets(takes, cbs, d, 1, sets), fin, fin, DirectionAfter(1, sets), st.rem, i);
  }

  lemma ReadOut(d: Desk, st: State, fin: State, back: bool, words: seq<Bits>, i: nat)
    requires Match(d, st, fin, back, words) && i < |words| && i < |st.rem| && st.rem[i] == []
    ensures d.done[i] && BitsOf(d.used[i]) == words[i]
  {
    assert HasRead(d, i, words[i], st.rem[i]);
  }

  /** And each of them is finished within its own set: codeword b of a set, when that set is over. */
  lemma OwnSet(t: Tables, cbs: seq<nat>, d: Desk, st: State, set_: nat, b: nat)
    requires WellFormed(t) && st.Valid() && AllCodewords(t, cbs, st.rem) && Fits(st)
    requires 1 <= set_ <= Sets(|st.slots| + |st.rem|, |st.slots|)
    requires b < |st.slots| && HcrSchedule.Index(|st.slots|, set_, b) < |st.rem|
    requires Received(d, st, RunSets(st, 1, Sets(|st.slots| + |st.rem|, |st.slots|)))
    ensures var i := HcrSchedule.Index(|st.slots|, set_, b);
            var r := AfterSets(DecodedLength(t), cbs, d, 1, set_);
            r.done[i] && BitsOf(r.used[i]) == st.rem[i]
  {
    hide *;
    var sets, i := Sets(|st.slots| + |st.rem|, |st.slots|), HcrSchedule.Index(|st.slots|, set_, b);
    var fin, mid, takes := RunSets(st, 1, sets), RunSets(st, 1, set_), DecodedLength(t);
    RunSetsExtends(st, 1, sets);
    ReceivedMatches(t, cbs, d, st, fin);
    MatchSizes(d, st, fin, true, st.rem);
    PrefixExtends(st, 1, set_, sets);
    FirstDirection();
    AllSizes(t, cbs, st.rem);
    SetsMatch(t, takes, cbs, d, 1, set_, st, fin, st.rem);
    RunSetsFinish(st, 1, set_, i, set_, b);
    ReadOut(AfterSets(takes, cbs, d, 1, set_), mid, fin, DirectionAfter(1, set_), st.rem, i);
  }

  lemma FirstDirection()
    ensures Backward(1)
  {
  }

  lemma AllSizes(t: Tables, cbs: seq<nat>, words: seq<Bits>)
    requires WellFormed(t) && AllCodewords(t, cbs, words)
    ensures |cbs| == |words|
  {
  }

  lemma {:induction false} PrefixExtends(st: State, set_: nat, some: nat, all: nat)
    requires st.Valid() && set_ >= 1 && some <= all
    ensures Extends(RunSets(st, set_, some), RunSets(st, set_, all))
    decreases all + 1 - set_
  {
    hide RunTrials, Extends;
    if set_ > some {
      RunSetsExtends(st, set_, all);
    } else {
      PrefixExtends(RunTrials(st, set_, 0), set_ + 1, some, all);
    }
  }
}
