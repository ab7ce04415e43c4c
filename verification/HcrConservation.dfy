/**
  * Step 2 of `reordered_spectral_data` on any data, well formed or not: no bit of the
  * segments is lost or read twice. Every bit carries a mark, so that equal bits differ.
  */
module HcrConservation {
  import opened Words
  import opened Codewords
  import opened HcrSchedule

  /** A bit and where it came from. */
  datatype Mark = Mark(id: nat, bit: bool)

  type Marks = seq<Mark>

  function BitsOf(s: Marks): (b: Bits)
    ensures |b| == |s|
  {
    seq(|s|, k requires 0 <= k < |s| => s[k].bit)
  }

  lemma BitsOfConcat(a: Marks, b: Marks)
    ensures BitsOf(a + b) == BitsOf(a) + BitsOf(b)
  {
  }

  lemma BitsOfSlice(data: Marks, a: nat, b: nat)
    requires a <= b <= |data|
    ensures BitsOf(data[a..b]) == BitsOf(data)[a..b]
  {
  }

  lemma BitsOfParts(s: Marks, n: nat)
    requires n <= |s|
    ensures BitsOf(s[..n]) == BitsOf(s)[..n] && BitsOf(s[n..]) == BitsOf(s)[n..]
  {
  }

  /** How many bits a codebook's next codeword takes from a list, or -1 when there is none. */
  type Taker = (nat, Bits) -> int

  /** What `Decode` takes of a list: the length of the codeword at its front, or -1. */
  ghost function DecodedLength(t: Tables): Taker
    requires WellFormed(t)
  {
    (cb: nat, s: Bits) =>
      if IsSpectral(cb) && Decode(t, cb, s).Done? then Decode(t, cb, s).n else -1
  }

  /** What lies in the segments, what undecoded codewords have stashed, and what decoded ones have used. */
  datatype Desk = Desk(segs: seq<Marks>, stash: seq<Marks>, used: seq<Marks>, done: seq<bool>)
  {
    predicate Valid() {
      |segs| > 0 && |stash| == |used| == |done|
    }

    /** A codeword uses bits when it is decoded and stashes bits until then. */
    predicate Tidy() {
      && Valid()
      && forall i :: 0 <= i < |done| ==> if done[i] then stash[i] == [] else used[i] == []
    }
  }

  /** The visit of codeword i to segment g. */
  function Visited(takes: Taker, cbs: seq<nat>, d: Desk, g: nat, i: nat): (r: Desk)
    requires d.Valid() && |cbs| == |d.done| && g < |d.segs| && i < |d.done|
    ensures r.Valid() && |r.segs| == |d.segs| && |r.done| == |d.done|
  {
    if d.done[i] || d.segs[g] == [] then d
    else
      var all := d.stash[i] + d.segs[g];
      var n := takes(cbs[i], BitsOf(all));
      if 0 <= n <= |all| then
        Desk(d.segs[g := all[n..]], d.stash[i := []], d.used[i := all[..n]], d.done[i := true])
      else Desk(d.segs[g := []], d.stash[i := all], d.used, d.done)
  }

  function Reverse(s: Marks): (r: Marks)
    ensures |r| == |s|
  {
    seq(|s|, k requires 0 <= k < |s| => s[|s| - 1 - k])
  }

  lemma BitsOfReverse(s: Marks)
    ensures BitsOf(Reverse(s)) == Rev(BitsOf(s))
  {
  }

  function Turned(d: Desk): (r: Desk)
    requires d.Valid()
    ensures r.Valid() && |r.segs| == |d.segs| && |r.done| == |d.done|
  {
    d.(segs := seq(|d.segs|, g requires 0 <= g < |d.segs| => Reverse(d.segs[g])))
  }

  function AfterBase(takes: Taker, cbs: seq<nat>, d: Desk, set_: nat, trial: nat, base: nat): (r: Desk)
    requires d.Valid() && |cbs| == |d.done| && set_ >= 1
    ensures r.Valid() && |r.segs| == |d.segs| && |r.done| == |d.done|
    decreases |d.segs| - base
  {
    var S := |d.segs|;
    var i := HcrSchedule.Index(S, set_, base);
    if base >= S || i >= |d.done| then d
    else AfterBase(takes, cbs, Visited(takes, cbs, d, Segment(S, trial, base), i), set_, trial, base + 1)
  }

  function AfterTrials(takes: Taker, cbs: seq<nat>, d: Desk, set_: nat, trial: nat): (r: Desk)
    requires d.Valid() && |cbs| == |d.done| && set_ >= 1
    ensures r.Valid() && |r.segs| == |d.segs| && |r.done| == |d.done|
    decreases |d.segs| - trial
  {
    if trial >= |d.segs| then d
    else AfterTrials(takes, cbs, AfterBase(takes, cbs, d, set_, trial, 0), set_, trial + 1)
  }

  /** Step 2: the sets, with all segments turned round after each. */
  function AfterSets(takes: Taker, cbs: seq<nat>, d: Desk, set_: nat, sets: nat): (r: Desk)
    requires d.Valid() && |cbs| == |d.done| && set_ >= 1
    ensures r.Valid() && |r.segs| == |d.segs| && |r.done| == |d.done|
    decreases sets + 1 - set_
  {
    if set_ > sets then d
    else AfterSets(takes, cbs, Turned(AfterTrials(takes, cbs, d, set_, 0)), set_ + 1, sets)
  }

  // ----- every bit, counted by its mark

  /** How often a mark stands in a list. */
  function Occurs(s: Marks, m: Mark): nat {
    if s == [] then 0 else Occurs(s[..|s| - 1], m) + if s[|s| - 1] == m then 1 else 0
  }

  function Sum(ss: seq<Marks>, m: Mark): nat {
    if ss == [] then 0 else Sum(ss[..|ss| - 1], m) + Occurs(ss[|ss| - 1], m)
  }

  /** How often a mark stands anywhere. */
  function Anywhere(d: Desk, m: Mark): nat {
    Sum(d.segs, m) + Sum(d.stash, m) + Sum(d.used, m)
  }

  lemma {:induction false} OccursConcat(a: Marks, b: Marks, m: Mark)
    ensures Occurs(a + b, m) == Occurs(a, m) + Occurs(b, m)
    decreases |b|
  {
    if b == [] {
      assert a + b == a;
    } else {
      var n := |b| - 1;
      assert (a + b)[..|a + b| - 1] == a + b[..n];
      OccursConcat(a, b[..n], m);
    }
  }

  lemma {:induction false} OccursReverse(s: Marks, m: Mark)
    ensures Occurs(Reverse(s), m) == Occurs(s, m)
    decreases |s|
  {
    if s != [] {
      var n := |s| - 1;
      assert Reverse(s) == [s[n]] + Reverse(s[..n]);
      OccursConcat([s[n]], Reverse(s[..n]), m);
      OccursReverse(s[..n], m);
      assert [s[n]][..0] == [];
    }
  }

  lemma {:induction false} SumUpdate(ss: seq<Marks>, i: nat, x: Marks, m: Mark)
    requires i < |ss|
    ensures Sum(ss[i := x], m) + Occurs(ss[i], m) == Sum(ss, m) + Occurs(x, m)
    decreases |ss|
  {
    var n := |ss| - 1;
    if i < n {
      SumUpdate(ss[..n], i, x, m);
      assert ss[i := x][..n] == ss[..n][i := x];
    } else {
      assert ss[i := x][..n] == ss[..n];
    }
  }

  /** In order: what was stashed and in the segment is used, stashed or still in the segment. */
  lemma VisitKeepsOrder(takes: Taker, cbs: seq<nat>, d: Desk, g: nat, i: nat)
    requires d.Tidy() && |cbs| == |d.done| && g < |d.segs| && i < |d.done|
    ensures var r := Visited(takes, cbs, d, g, i);
            && r.Tidy()
            && d.used[i] + d.stash[i] + d.segs[g] == r.used[i] + r.stash[i] + r.segs[g]
            && (!d.done[i] && !r.done[i] ==> d.stash[i] <= r.stash[i] && r.segs[g] == [])
  {
    if !d.done[i] && d.segs[g] != [] {
      var all := d.stash[i] + d.segs[g];
      var n := takes(cbs[i], BitsOf(all));
      if 0 <= n <= |all| {
        assert all[..n] + all[n..] == all;
      }
    }
  }

  lemma VisitedOnly(takes: Taker, cbs: seq<nat>, d: Desk, g: nat, i: nat)
    requires d.Valid() && |cbs| == |d.done| && g < |d.segs| && i < |d.done|
    ensures var r := Visited(takes, cbs, d, g, i);
            && r.segs == d.segs[g := r.segs[g]] && r.stash == d.stash[i := r.stash[i]] && r.used == d.used[i := r.used[i]]
  {
  }

  lemma VisitConserves(takes: Taker, cbs: seq<nat>, d: Desk, g: nat, i: nat, m: Mark)
    requires d.Tidy() && |cbs| == |d.done| && g < |d.segs| && i < |d.done|
    ensures Visited(takes, cbs, d, g, i).Tidy()
    ensures Anywhere(Visited(takes, cbs, d, g, i), m) == Anywhere(d, m)
  {
    VisitKeepsOrder(takes, cbs, d, g, i);
    VisitedOnly(takes, cbs, d, g, i);
    hide Occurs, Sum, Visited;
    var r := Visited(takes, cbs, d, g, i);
    SumUpdate(d.segs, g, r.segs[g], m);
    SumUpdate(d.stash, i, r.stash[i], m);
    SumUpdate(d.used, i, r.used[i], m);
    OccursConcat(d.used[i] + d.stash[i], d.segs[g], m);
    OccursConcat(d.used[i], d.stash[i], m);
    OccursConcat(r.used[i] + r.stash[i], r.segs[g], m);
    OccursConcat(r.used[i], r.stash[i], m);
  }

  lemma {:induction false} SumReverse(ss: seq<Marks>, rs: seq<Marks>, m: Mark)
    requires |rs| == |ss| && forall g :: 0 <= g < |ss| ==> rs[g] == Reverse(ss[g])
    ensures Sum(rs, m) == Sum(ss, m)
    decreases |ss|
  {
    hide Reverse, Occurs;
    if ss != [] {
      var n := |ss| - 1;
      OccursReverse(ss[n], m);
      SumReverse(ss[..n], rs[..n], m);
    }
  }

  lemma TurnConserves(d: Desk, m: Mark)
    requires d.Tidy()
    ensures Turned(d).Tidy() && Anywhere(Turned(d), m) == Anywhere(d, m)
  {
    hide Sum, Reverse;
    SumReverse(d.segs, Turned(d).segs, m);
  }

  // ----- any visits and turns, and those of step 2

  datatype Move = Visit(g: nat, i: nat) | Turn

  predicate MoveFits(d: Desk, m: Move) {
    m.Visit? ==> m.g < |d.segs| && m.i < |d.done|
  }

  predicate AllFit(d: Desk, ms: seq<Move>) {
    forall k :: 0 <= k < |ms| ==> MoveFits(d, ms[k])
  }

  function AfterMove(takes: Taker, cbs: seq<nat>, d: Desk, m: Move): (r: Desk)
    requires d.Valid() && |cbs| == |d.done| && MoveFits(d, m)
    ensures r.Valid() && |r.segs| == |d.segs| && |r.done| == |d.done|
  {
    match m
    case Visit(g, i) => Visited(takes, cbs, d, g, i)
    case Turn => Turned(d)
  }

  function AfterMoves(takes: Taker, cbs: seq<nat>, d: Desk, ms: seq<Move>): (r: Desk)
    requires d.Valid() && |cbs| == |d.done| && AllFit(d, ms)
    ensures r.Valid() && |r.segs| == |d.segs| && |r.done| == |d.done|
    decreases |ms|
  {
    if ms == [] then d else AfterMoves(takes, cbs, AfterMove(takes, cbs, d, ms[0]), ms[1..])
  }

  /**
    * Whatever the segments hold and whatever the decoder makes of it, after any visits and
    * turns in any order every bit is in one place only: used by a decoded codeword, stashed
    * by an undecoded one, or still in its segment.
    */
  lemma {:induction false} EveryBitKept(takes: Taker, cbs: seq<nat>, d: Desk, ms: seq<Move>, m: Mark)
    requires d.Tidy() && |cbs| == |d.done| && AllFit(d, ms)
    ensures var r := AfterMoves(takes, cbs, d, ms);
            r.Tidy() && Anywhere(r, m) == Anywhere(d, m)
    decreases |ms|
  {
    assert d.Valid();
    hide Visited, Turned, Anywhere, d.Tidy;
    if ms != [] {
      match ms[0] {
        case Visit(g, i) => VisitConserves(takes, cbs, d, g, i, m);
        case Turn => TurnConserves(d, m);
      }
      EveryBitKept(takes, cbs, AfterMove(takes, cbs, d, ms[0]), ms[1..], m);
    }
  }

  // the schedule of step 2 for S segments and n codewords

  function BaseMoves(S: nat, n: nat, set_: nat, trial: nat, base: nat): seq<Move>
    requires S > 0 && set_ >= 1
    decreases S - base
  {
    var i := HcrSchedule.Index(S, set_, base);
    if base >= S || i >= n then [] else [Visit(Segment(S, trial, base), i)] + BaseMoves(S, n, set_, trial, base + 1)
  }

  function TrialMoves(S: nat, n: nat, set_: nat, trial: nat): seq<Move>
    requires S > 0 && set_ >= 1
    decreases S - trial
  {
    if trial >= S then [] else BaseMoves(S, n, set_, trial, 0) + TrialMoves(S, n, set_, trial + 1)
  }

  function SetMoves(S: nat, n: nat, set_: nat, sets: nat): seq<Move>
    requires S > 0 && set_ >= 1
    decreases sets + 1 - set_
  {
    if set_ > sets then [] else TrialMoves(S, n, set_, 0) + [Turn] + SetMoves(S, n, set_ + 1, sets)
  }

  lemma {:induction false} MovesConcat(takes: Taker, cbs: seq<nat>, d: Desk, a: seq<Move>, b: seq<Move>)
    requires d.Valid() && |cbs| == |d.done| && AllFit(d, a) && AllFit(d, b)
    ensures AllFit(d, a + b) && AllFit(AfterMoves(takes, cbs, d, a), b)
    ensures AfterMoves(takes, cbs, d, a + b) == AfterMoves(takes, cbs, AfterMoves(takes, cbs, d, a), b)
    decreases |a|
  {
    if a == [] {
      assert a + b == b;
    } else {
      hide AfterMove;
      assert (a + b)[1..] == a[1..] + b;
      MovesConcat(takes, cbs, AfterMove(takes, cbs, d, a[0]), a[1..], b);
    }
  }

  lemma {:induction false} BaseIsMoves(takes: Taker, cbs: seq<nat>, d: Desk, set_: nat, trial: nat, base: nat)
    requires d.Valid() && |cbs| == |d.done| && set_ >= 1
    ensures AllFit(d, BaseMoves(|d.segs|, |d.done|, set_, trial, base))
    ensures AfterBase(takes, cbs, d, set_, trial, base)
         == AfterMoves(takes, cbs, d, BaseMoves(|d.segs|, |d.done|, set_, trial, base))
    decreases |d.segs| - base
  {
    hide Visited, HcrSchedule.Index, Segment;
    var S, i := |d.segs|, HcrSchedule.Index(|d.segs|, set_, base);
    if base < S && i < |d.done| {
      var g := Segment(S, trial, base);
      var ms := BaseMoves(S, |d.done|, set_, trial, base);
      BaseIsMoves(takes, cbs, Visited(takes, cbs, d, g, i), set_, trial, base + 1);
      assert ms[0] == Visit(g, i) && ms[1..] == BaseMoves(S, |d.done|, set_, trial, base + 1);
    }
  }

  lemma {:induction false} TrialsAreMoves(takes: Taker, cbs: seq<nat>, d: Desk, set_: nat, trial: nat)
    requires d.Valid() && |cbs| == |d.done| && set_ >= 1
    ensures AllFit(d, TrialMoves(|d.segs|, |d.done|, set_, trial))
    ensures AfterTrials(takes, cbs, d, set_, trial)
         == AfterMoves(takes, cbs, d, TrialMoves(|d.segs|, |d.done|, set_, trial))
    decreases |d.segs| - trial
  {
    hide AfterBase, BaseMoves;
    var S, n := |d.segs|, |d.done|;
    if trial < S {
      BaseIsMoves(takes, cbs, d, set_, trial, 0);
      TrialsAreMoves(takes, cbs, AfterBase(takes, cbs, d, set_, trial, 0), set_, trial + 1);
      MovesConcat(takes, cbs, d, BaseMoves(S, n, set_, trial, 0), TrialMoves(S, n, set_, trial + 1));
    }
  }

  /** Step 2 is such a sequence, so every prefix of it keeps every bit. */
  lemma {:induction false} SetsAreMoves(takes: Taker, cbs: seq<nat>, d: Desk, set_: nat, sets: nat)
    requires d.Valid() && |cbs| == |d.done| && set_ >= 1
    ensures AllFit(d, SetMoves(|d.segs|, |d.done|, set_, sets))
    ensures AfterSets(takes, cbs, d, set_, sets)
         == AfterMoves(takes, cbs, d, SetMoves(|d.segs|, |d.done|, set_, sets))
    decreases sets + 1 - set_
  {
    hide AfterTrials, TrialMoves, Turned;
    var S, n := |d.segs|, |d.done|;
    if set_ <= sets {
      TrialsAreMoves(takes, cbs, d, set_, 0);
      var e := AfterTrials(takes, cbs, d, set_, 0);
      SetsAreMoves(takes, cbs, Turned(e), set_ + 1, sets);
      var a, b := TrialMoves(S, n, set_, 0), SetMoves(S, n, set_ + 1, sets);
      assert [Turn][1..] == [];
      assert AfterMoves(takes, cbs, e, [Turn]) == Turned(e);
      MovesConcat(takes, cbs, d, a, [Turn]);
      MovesConcat(takes, cbs, d, a + [Turn], b);
    }
  }

  /** After any number of visits and turns of step 2. */
  lemma StepTwoKeeps(takes: Taker, cbs: seq<nat>, d: Desk, sets: nat, k: nat, m: Mark)
    requires d.Tidy() && |cbs| == |d.done| && k <= |SetMoves(|d.segs|, |d.done|, 1, sets)|
    ensures AllFit(d, SetMoves(|d.segs|, |d.done|, 1, sets)[..k])
    ensures var r := AfterMoves(takes, cbs, d, SetMoves(|d.segs|, |d.done|, 1, sets)[..k]);
            r.Tidy() && Anywhere(r, m) == Anywhere(d, m)
  {
    SetsAreMoves(takes, cbs, d, 1, sets);
    EveryBitKept(takes, cbs, d, SetMoves(|d.segs|, |d.done|, 1, sets)[..k], m);
  }
}
