/**
  * drm_dec.c: the parametric stereo side data, from bits to band indices, with
  * differences in frequency or in time and the concealment of errors.
  *
  * Stereo ambience (SA, 8 bands of 0..7) and panning (PAN, 20 bands of -7..7)
  * go through the same steps, so each is a Part with its own bounds.
  */
module DrmPs {
  import opened Words
  import opened BitReader
  import opened DrmTree

  /** `DRM_NUM_SA_BANDS`, `DRM_NUM_PAN_BANDS` and the bounds of `sa_delta_clip`, `pan_delta_clip`. */
  datatype Bounds = Bounds(bands: nat, lo: int, hi: int, inFreq: Tree, inTime: Tree)
  {
    predicate Has(x: int) { lo <= x <= hi }

    function Clip(x: int): (c: int)
      requires lo <= hi
      ensures Has(c) && (Has(x) ==> c == x)
    {
      if x < lo then lo else if x > hi then hi else x
    }

    predicate Valid() {
      lo <= 0 <= hi && bands > 0 && inFreq.Top() == inTime.Top() == hi - lo
    }

    function Differences(dt: bool): Tree { if dt then inTime else inFreq }
  }

  const SA := Bounds(8, 0, 7, FSa, TSa)
  const PAN := Bounds(20, -7, 7, FPan, TPan)

  predicate All(b: Bounds, s: seq<int>) {
    |s| == b.bands && forall k :: 0 <= k < |s| ==> b.Has(s[k])
  }

  // ----- differences

  /** The band before the n-th, and zero before the first. */
  function Before(s: seq<int>, n: nat): int
    requires n <= |s|
  {
    if n == 0 then 0 else s[n - 1]
  }

  /** A clipped index lies between the sum and every index in range. */
  lemma ClipIsNearest(b: Bounds, x: int, y: int)
    requires b.Valid() && b.Has(y)
    ensures x <= b.Clip(x) <= y || y <= b.Clip(x) <= x
  {
  }

  /** The indices that differences in frequency add up to, each sum clipped. */
  function InFreq(b: Bounds, data: seq<int>): (r: seq<int>)
    requires b.Valid()
    ensures |r| == |data| && forall k :: 0 <= k < |r| ==> b.Has(r[k])
  {
    if data == [] then []
    else
      var n := |data| - 1;
      var r := InFreq(b, data[..n]);
      r + [b.Clip(Before(r, n) + data[n])]
  }

  /** No sum had to be clipped. */
  predicate FreqOk(b: Bounds, data: seq<int>)
    requires b.Valid()
  {
    data == [] ||
    var n := |data| - 1;
    FreqOk(b, data[..n]) && b.Has(Before(InFreq(b, data[..n]), n) + data[n])
  }

  /** The indices that differences in time lead to from the frame before. */
  function InTime(b: Bounds, prev: seq<int>, data: seq<int>): (r: seq<int>)
    requires b.Valid() && |prev| == |data|
    ensures |r| == |data| && forall k :: 0 <= k < |r| ==> b.Has(r[k])
  {
    seq(|data|, k requires 0 <= k < |data| => b.Clip(prev[k] + data[k]))
  }

  predicate TimeOk(b: Bounds, prev: seq<int>, data: seq<int>)
    requires |prev| == |data|
  {
    forall k :: 0 <= k < |data| ==> b.Has(prev[k] + data[k])
  }

  // ----- the state

  datatype Part = Part(
    enable: bool,      // bs_enable_sa, bs_enable_pan
    dt: bool,          // bs_sa_dt_flag: differences are in time
    had: bool,         // g_last_had_sa
    err: bool,         // sa_decode_error
    data: seq<int>,    // bs_sa_data
    index: seq<int>,   // g_sa_index
    prev: seq<int>,    // g_prev_sa_index
    good: seq<int>)    // g_last_good_sa_index

  datatype Ps = Ps(available: bool, sa: Part, pan: Part)

  predicate PartInv(b: Bounds, p: Part) {
    && All(b, p.index) && All(b, p.prev) && All(b, p.good)
    && |p.data| == b.bands && forall k :: 0 <= k < |p.data| ==> IsSymbol(b.inFreq, p.data[k])
  }

  /** Every reachable state: indices in range, and the panning indices are the last good ones. */
  predicate Inv(ps: Ps) {
    PartInv(SA, ps.sa) && PartInv(PAN, ps.pan) && ps.pan.index == ps.pan.good
  }

  function Silence(n: nat): seq<int> {
    seq(n, k => 0)
  }

  function Fresh(b: Bounds): Part {
    Part(false, false, false, false, Silence(b.bands), Silence(b.bands), Silence(b.bands), Silence(b.bands))
  }

  /** `drm_ps_init` */
  function Init(): Ps {
    Ps(false, Fresh(SA), Fresh(PAN))
  }

  // ----- delta decoding

  /** One part's indices from its differences; a difference in time needs a frame before. */
  function Delta(b: Bounds, p: Part): Part
    requires b.Valid() && PartInv(b, p)
  {
    if !p.enable then p
    else if p.dt && !p.had then p.(enable := false)
    else if p.dt then p.(index := InTime(b, p.prev, p.data), err := p.err || !TimeOk(b, p.prev, p.data))
    else p.(index := InFreq(b, p.data), err := p.err || !FreqOk(b, p.data))
  }

  /** After an error back to the last good indices, otherwise these are the good ones. */
  function Settle(p: Part): Part {
    if p.err then p.(index := p.good) else p.(good := p.index)
  }

  /** An error in the SA part makes the PAN part undecodable and forces the last frame's switches. */
  function Force(ps: Ps): Ps {
    if ps.sa.err then
      ps.(sa := ps.sa.(enable := ps.sa.had), pan := ps.pan.(enable := ps.pan.had, err := true))
    else ps
  }

  /** `drm_ps_delta_decode` */
  function DeltaDecode(ps: Ps): Ps
    requires Inv(ps)
  {
    var f := Force(ps.(sa := Delta(SA, ps.sa)));
    f.(sa := if f.sa.enable then Settle(f.sa) else f.sa,
       pan := if f.pan.enable then Settle(Delta(PAN, f.pan)) else f.pan)
  }

  /** What a frame leaves for the next one. */
  function Remember(p: Part): Part {
    if p.enable then p.(had := true, prev := p.index) else p.(had := false)
  }

  /** The state part of `drm_ps_decode`. */
  function Decode(ps: Ps, guess: bool): Ps
    requires Inv(ps)
  {
    if !ps.available && !guess then
      ps.(sa := ps.sa.(prev := Silence(SA.bands)), pan := ps.pan.(prev := Silence(PAN.bands)))
    else
      var d :=
        if guess then ps.(sa := ps.sa.(err := true), pan := ps.pan.(err := true))
        else DeltaDecode(ps.(sa := ps.sa.(err := false), pan := ps.pan.(err := false)));
      Ps(false, Remember(d.sa), Remember(d.pan))
  }

  // ----- reading the bits

  /** `drm_ps_sa_element`, `drm_ps_pan_element`: which differences, and one for each band. */
  function Element(b: Bounds, p: Part, buffer: seq<Byte>, at: nat): (r: (Part, nat))
    ensures at <= r.1
  {
    var dt := StreamBit(buffer, at);
    var (vs, q) := WalkMany(b.Differences(dt), b.bands, buffer, at + 1);
    (p.(dt := dt, data := vs), q)
  }

  function Switched(b: Bounds, p: Part, on: bool, buffer: seq<Byte>, at: nat): (r: (Part, nat))
    ensures at <= r.1
  {
    var (e, q) := if on then Element(b, p, buffer, at) else (p, at);
    (e.(enable := on), q)
  }

  /** `drm_ps_data`: two switches, then the parts switched on. */
  function Data(ps: Ps, buffer: seq<Byte>, at: nat): (r: (Ps, nat))
    ensures at <= r.1
  {
    var enSa, enPan := StreamBit(buffer, at), StreamBit(buffer, at + 1);
    var (sa, q) := Switched(SA, ps.sa, enSa, buffer, at + 2);
    var (pan, q') := Switched(PAN, ps.pan, enPan, buffer, q);
    (Ps(true, sa, pan), q')
  }

  /** Which bit and which tree belongs to what. */
  lemma DataIsBits(ps: Ps, buffer: seq<Byte>, at: nat)
    ensures var (q, end) := Data(ps, buffer, at);
            && q.available && q.sa.enable == StreamBit(buffer, at) && q.pan.enable == StreamBit(buffer, at + 1)
            && var vs := WalkMany(if q.sa.dt then TSa else FSa, 8, buffer, at + 3);
               var from := if q.sa.enable then vs.1 else at + 2;
               && (q.sa.enable ==> q.sa.dt == StreamBit(buffer, at + 2) && q.sa.data == vs.0)
               && (if q.pan.enable then
                     && q.pan.dt == StreamBit(buffer, from)
                     && (q.pan.data, end) == WalkMany(if q.pan.dt then TPan else FPan, 20, buffer, from + 1)
                   else end == from)
  {
    hide WalkMany, StreamBit;
  }

  // ----- every reachable state

  predicate Zeroed(b: Bounds, p: Part) {
    && !p.enable && !p.dt && !p.had && !p.err && |p.data| == |p.index| == |p.prev| == |p.good| == b.bands
    && forall k :: 0 <= k < b.bands ==> p.data[k] == p.index[k] == p.prev[k] == p.good[k] == 0
  }

  /** A decoder starts with everything off and every index zero. */
  lemma InitInv()
    ensures Inv(Init()) && !Init().available
    ensures Zeroed(SA, Init().sa) && Zeroed(PAN, Init().pan)
  {
  }

  lemma DeltaInv(b: Bounds, p: Part)
    requires b.Valid() && PartInv(b, p)
    ensures PartInv(b, Delta(b, p)) && PartInv(b, Settle(Delta(b, p)))
  {
    hide InFreq, FreqOk;
  }

  lemma OffStays(b: Bounds, p: Part)
    requires b.Valid() && PartInv(b, p)
    ensures !p.enable ==> Delta(b, p) == p
  {
  }

  /** Whenever ambience is still switched on after delta decoding, its indices are the last good ones. */
  lemma DeltaDecodeInv(ps: Ps)
    requires Inv(ps)
    ensures Inv(DeltaDecode(ps))
    ensures DeltaDecode(ps).sa.enable ==> DeltaDecode(ps).sa.index == DeltaDecode(ps).sa.good
  {
    DeltaInv(SA, ps.sa);
    var f := Force(ps.(sa := Delta(SA, ps.sa)));
    assert PartInv(PAN, f.pan);
    DeltaInv(PAN, f.pan);
    hide Delta, PartInv;
    SettleInv(SA, f.sa);
  }

  lemma SettleInv(b: Bounds, p: Part)
    requires PartInv(b, p)
    ensures PartInv(b, Settle(p)) && Settle(p).index == Settle(p).good
  {
  }

  lemma DecodeInv(ps: Ps, guess: bool)
    requires Inv(ps)
    ensures Inv(Decode(ps, guess))
  {
    if ps.available || guess {
      var cleared := ps.(sa := ps.sa.(err := false), pan := ps.pan.(err := false));
      var marked := ps.(sa := ps.sa.(err := true), pan := ps.pan.(err := true));
      CopiesInv(ps, false);
      CopiesInv(ps, true);
      DeltaDecodeInv(cleared);
      RememberInv(DeltaDecode(cleared));
      RememberInv(marked);
      hide DeltaDecode, Inv, Remember;
    } else {
      SilenceInv(ps);
      hide DeltaDecode, Inv;
    }
  }

  lemma CopiesInv(ps: Ps, err: bool)
    requires Inv(ps)
    ensures Inv(ps.(sa := ps.sa.(err := err), pan := ps.pan.(err := err)))
  {
  }

  lemma RememberInv(ps: Ps)
    requires Inv(ps)
    ensures Inv(Ps(false, Remember(ps.sa), Remember(ps.pan)))
  {
  }

  lemma SilenceInv(ps: Ps)
    requires Inv(ps)
    ensures Inv(ps.(sa := ps.sa.(prev := Silence(SA.bands)), pan := ps.pan.(prev := Silence(PAN.bands))))
  {
  }

  lemma ElementInv(b: Bounds, p: Part, buffer: seq<Byte>, at: nat)
    requires b.Valid() && PartInv(b, p)
    ensures PartInv(b, Element(b, p, buffer, at).0)
  {
    hide WalkMany;
  }

  lemma SwitchedInv(b: Bounds, p: Part, on: bool, buffer: seq<Byte>, at: nat)
    requires b.Valid() && PartInv(b, p)
    ensures PartInv(b, Switched(b, p, on, buffer, at).0)
  {
    ElementInv(b, p, buffer, at);
    hide Element;
  }

  lemma DataInv(ps: Ps, buffer: seq<Byte>, at: nat)
    requires Inv(ps)
    ensures Inv(Data(ps, buffer, at).0)
  {
    var (sa, q) := Switched(SA, ps.sa, StreamBit(buffer, at), buffer, at + 2);
    SwitchedInv(SA, ps.sa, StreamBit(buffer, at), buffer, at + 2);
    SwitchedInv(PAN, ps.pan, StreamBit(buffer, at + 1), buffer, q);
    SwitchedKeeps(PAN, ps.pan, StreamBit(buffer, at + 1), buffer, q);
    hide Switched, PartInv;
  }

  lemma SwitchedKeeps(b: Bounds, p: Part, on: bool, buffer: seq<Byte>, at: nat)
    ensures var r := Switched(b, p, on, buffer, at).0; r.index == p.index && r.good == p.good
  {
  }

  datatype Call = DataCall(buffer: seq<Byte>, at: nat) | DecodeCall(guess: bool)

  function Next(ps: Ps, c: Call): (r: Ps)
    requires Inv(ps)
    ensures Inv(r)
  {
    match c
    case DataCall(buffer, at) =>
      DataInv(ps, buffer, at);
      Data(ps, buffer, at).0
    case DecodeCall(guess) =>
      DecodeInv(ps, guess);
      Decode(ps, guess)
  }

  function Run(ps: Ps, calls: seq<Call>): (r: Ps)
    requires Inv(ps)
    ensures Inv(r)
  {
    if calls == [] then ps else Next(Run(ps, calls[..|calls| - 1]), calls[|calls| - 1])
  }

  /** In every state that any calls on any bits lead to, the indices keep their ranges. */
  lemma {:induction false} ReachableIndices(calls: seq<Call>, k: nat)
    ensures Inv(Init())
    ensures var ps := Run(Init(), calls);
            && ps.pan.index == ps.pan.good && |ps.sa.index| == 8 && |ps.pan.index| == 20
            && (k < 8 ==> 0 <= ps.sa.index[k] <= 7)
            && (k < 20 ==> -7 <= ps.pan.index[k] <= 7)
            && |ps.sa.prev| == |ps.sa.data| == 8 && |ps.pan.prev| == |ps.pan.data| == 20
            && (k < 8 ==> -128 <= ps.sa.prev[k] + ps.sa.data[k] <= 127)    // so no int8_t wraps
            && (k < 20 ==> -128 <= ps.pan.prev[k] + ps.pan.data[k] <= 127)
            && (k < 8 ==> -128 <= Before(InFreq(SA, ps.sa.data), k) + ps.sa.data[k] <= 127)
            && (k < 20 ==> -128 <= Before(InFreq(PAN, ps.pan.data), k) + ps.pan.data[k] <= 127)
            && (k < 8 ==> -128 <= Before(ps.sa.index, k) + ps.sa.data[k] <= 127)
            && (k < 20 ==> -128 <= Before(ps.pan.index, k) + ps.pan.data[k] <= 127)
  {
    InitInv();
    hide Run, InFreq;
  }

  // ----- the encoder's side

  function FreqDiffs(s: seq<int>): (d: seq<int>)
    ensures |d| == |s|
  {
    seq(|s|, k requires 0 <= k < |s| => s[k] - Before(s, k))
  }

  function TimeDiffs(prev: seq<int>, s: seq<int>): (d: seq<int>)
    requires |prev| == |s|
    ensures |d| == |s|
  {
    seq(|s|, k requires 0 <= k < |s| => s[k] - prev[k])
  }

  /** Differences in frequency lead back to the indices they were taken from, and nothing is clipped. */
  lemma {:induction false} FreqRoundTrip(b: Bounds, s: seq<int>)
    requires b.Valid() && forall k :: 0 <= k < |s| ==> b.Has(s[k])
    ensures InFreq(b, FreqDiffs(s)) == s && FreqOk(b, FreqDiffs(s))
    ensures forall k :: 0 <= k < |s| ==> IsSymbol(b.inFreq, FreqDiffs(s)[k])
    decreases |s|
  {
    if s != [] {
      var n := |s| - 1;
      FreqRoundTrip(b, s[..n]);
      assert FreqDiffs(s)[..n] == FreqDiffs(s[..n]);
      assert Before(s[..n], n) == Before(s, n);
      assert s == s[..n] + [s[n]];
    }
  }

  lemma TimeRoundTrip(b: Bounds, prev: seq<int>, s: seq<int>)
    requires b.Valid() && All(b, prev) && All(b, s)
    ensures InTime(b, prev, TimeDiffs(prev, s)) == s && TimeOk(b, prev, TimeDiffs(prev, s))
    ensures forall k :: 0 <= k < |s| ==> IsSymbol(b.inTime, TimeDiffs(prev, s)[k])
  {
  }

  /** What a frame sends of a part: nothing, or indices as differences in frequency or in time. */
  datatype Choice = Off | Freq(target: seq<int>) | Time(target: seq<int>)

  predicate CanSend(b: Bounds, p: Part, c: Choice) {
    match c
    case Off => true
    case Freq(s) => All(b, s)
    case Time(s) => All(b, s) && p.had
  }

  predicate TimeFits(p: Part, c: Choice) {
    c.Time? ==> |p.prev| == |c.target|
  }

  function Diffs(p: Part, c: Choice): seq<int>
    requires TimeFits(p, c)
  {
    match c
    case Off => []
    case Freq(s) => FreqDiffs(s)
    case Time(s) => TimeDiffs(p.prev, s)
  }

  lemma DiffsAreSymbols(b: Bounds, p: Part, c: Choice)
    requires b.Valid() && PartInv(b, p) && CanSend(b, p, c) && !c.Off?
    ensures |Diffs(p, c)| == b.bands
    ensures forall k :: 0 <= k < b.bands ==> IsSymbol(b.Differences(c.Time?), Diffs(p, c)[k])
  {
    match c
    case Freq(s) => FreqRoundTrip(b, s);
    case Time(s) => TimeRoundTrip(b, p.prev, s);
  }

  function PartBits(b: Bounds, p: Part, c: Choice): Bits
    requires b.Valid() && PartInv(b, p) && CanSend(b, p, c)
  {
    if c.Off? then []
    else
      DiffsAreSymbols(b, p, c);
      [c.Time?] + Codes(b.Differences(c.Time?), Diffs(p, c))
  }

  function FrameBits(ps: Ps, sa: Choice, pan: Choice): Bits
    requires Inv(ps) && CanSend(SA, ps.sa, sa) && CanSend(PAN, ps.pan, pan)
  {
    [!sa.Off?, !pan.Off?] + (SaBits(ps, sa) + PanBits(ps, pan))
  }

  function SaBits(ps: Ps, sa: Choice): Bits
    requires Inv(ps) && CanSend(SA, ps.sa, sa)
  {
    PartBits(SA, ps.sa, sa)
  }

  function PanBits(ps: Ps, pan: Choice): Bits
    requires Inv(ps) && CanSend(PAN, ps.pan, pan)
  {
    PartBits(PAN, ps.pan, pan)
  }

  predicate Symbols(t: Tree, d: seq<int>) {
    forall k :: 0 <= k < |d| ==> IsSymbol(t, d[k])
  }

  lemma ElementReads(b: Bounds, p: Part, dt: bool, d: seq<int>, buffer: seq<Byte>, at: nat)
    requires |d| == b.bands && Symbols(b.Differences(dt), d)
    requires Stream(buffer, at, |[dt] + Codes(b.Differences(dt), d)|) == [dt] + Codes(b.Differences(dt), d)
    ensures Element(b, p, buffer, at)
         == (p.(dt := dt, data := d), at + 1 + |Codes(b.Differences(dt), d)|)
  {
    var t := b.Differences(dt);
    hide IsSymbol, Codes, b.Differences, Element, StreamBit;
    OneFlag(buffer, at, dt, Codes(t, d));
    CodesDecode(t, d, buffer, at + 1);
    ElementIs(b, p, dt, buffer, at);
  }

  lemma PartBitsAre(b: Bounds, p: Part, c: Choice)
    requires b.Valid() && PartInv(b, p) && CanSend(b, p, c) && !c.Off?
    ensures TimeFits(p, c) && |Diffs(p, c)| == b.bands && Symbols(b.Differences(c.Time?), Diffs(p, c))
    ensures PartBits(b, p, c) == [c.Time?] + Codes(b.Differences(c.Time?), Diffs(p, c))
  {
    DiffsAreSymbols(b, p, c);
    hide Codes, IsSymbol, Diffs;
  }

  lemma OneFlag(buffer: seq<Byte>, at: nat, f: bool, a: Bits)
    requires Stream(buffer, at, |[f] + a|) == [f] + a
    ensures StreamBit(buffer, at) == f && Stream(buffer, at + 1, |a|) == a
  {
    hide StreamBit;
    Halves(buffer, at, [f], a);
    assert Stream(buffer, at, 1)[0] == StreamBit(buffer, at + 0);
  }

  lemma ElementIs(b: Bounds, p: Part, dt: bool, buffer: seq<Byte>, at: nat)
    requires StreamBit(buffer, at) == dt
    ensures var (vs, q) := WalkMany(b.Differences(dt), b.bands, buffer, at + 1);
            Element(b, p, buffer, at) == (p.(dt := dt, data := vs), q)
  {
    hide WalkMany, StreamBit;
  }

  /** The part as the frame's bits leave it. */
  function Received(p: Part, c: Choice): Part
    requires TimeFits(p, c)
  {
    if c.Off? then p.(enable := false) else p.(enable := true, dt := c.Time?, data := Diffs(p, c))
  }

  lemma DataReads(ps: Ps, sa: Choice, pan: Choice, buffer: seq<Byte>, at: nat)
    requires Inv(ps) && CanSend(SA, ps.sa, sa) && CanSend(PAN, ps.pan, pan)
    requires Stream(buffer, at, |FrameBits(ps, sa, pan)|) == FrameBits(ps, sa, pan)
    ensures Data(ps, buffer, at)
         == (Ps(true, SaReceived(ps, sa), PanReceived(ps, pan)), at + |FrameBits(ps, sa, pan)|)
  {
    hide *;
    FrameBitsAre(ps, sa, pan);
    var a, b := SaBits(ps, sa), PanBits(ps, pan);
    TwoFlags(buffer, at, !sa.Off?, !pan.Off?, a, b);
    SaReads(ps, sa, buffer, at + 2);
    PanReads(ps, pan, buffer, at + 2 + |a|);
    DataIs(ps, buffer, at, SaReceived(ps, sa), at + 2 + |a|);
  }

  lemma FrameBitsAre(ps: Ps, sa: Choice, pan: Choice)
    requires Inv(ps) && CanSend(SA, ps.sa, sa) && CanSend(PAN, ps.pan, pan)
    ensures FrameBits(ps, sa, pan) == [!sa.Off?, !pan.Off?] + (SaBits(ps, sa) + PanBits(ps, pan))
  {
    hide SaBits, PanBits, Inv, CanSend;
  }

  function SaReceived(ps: Ps, sa: Choice): Part
    requires Inv(ps) && CanSend(SA, ps.sa, sa)
  {
    Received(ps.sa, sa)
  }

  function PanReceived(ps: Ps, pan: Choice): Part
    requires Inv(ps) && CanSend(PAN, ps.pan, pan)
  {
    Received(ps.pan, pan)
  }

  lemma SaReads(ps: Ps, sa: Choice, buffer: seq<Byte>, at: nat)
    requires Inv(ps) && CanSend(SA, ps.sa, sa) && Stream(buffer, at, |SaBits(ps, sa)|) == SaBits(ps, sa)
    ensures Switched(SA, ps.sa, !sa.Off?, buffer, at) == (SaReceived(ps, sa), at + |SaBits(ps, sa)|)
  {
    hide PartBits, Switched, Received, PartInv, CanSend;
    SwitchedReads(SA, ps.sa, sa, buffer, at);
  }

  lemma PanReads(ps: Ps, pan: Choice, buffer: seq<Byte>, at: nat)
    requires Inv(ps) && CanSend(PAN, ps.pan, pan) && Stream(buffer, at, |PanBits(ps, pan)|) == PanBits(ps, pan)
    ensures Switched(PAN, ps.pan, !pan.Off?, buffer, at) == (PanReceived(ps, pan), at + |PanBits(ps, pan)|)
  {
    hide PartBits, Switched, Received, PartInv, CanSend;
    SwitchedReads(PAN, ps.pan, pan, buffer, at);
  }

  lemma TwoFlags(buffer: seq<Byte>, at: nat, f: bool, g: bool, a: Bits, b: Bits)
    requires Stream(buffer, at, |[f, g] + (a + b)|) == [f, g] + (a + b)
    ensures StreamBit(buffer, at) == f && StreamBit(buffer, at + 1) == g
    ensures Stream(buffer, at + 2, |a|) == a && Stream(buffer, at + 2 + |a|, |b|) == b
  {
    hide StreamBit;
    Halves(buffer, at, [f, g], a + b);
    Halves(buffer, at + 2, a, b);
    assert Stream(buffer, at, 2)[0] == StreamBit(buffer, at + 0);
    assert Stream(buffer, at, 2)[1] == StreamBit(buffer, at + 1);
  }

  lemma DataIs(ps: Ps, buffer: seq<Byte>, at: nat, sa: Part, q: nat)
    requires Switched(SA, ps.sa, StreamBit(buffer, at), buffer, at + 2) == (sa, q)
    ensures var (pan, q') := Switched(PAN, ps.pan, StreamBit(buffer, at + 1), buffer, q);
            Data(ps, buffer, at) == (Ps(true, sa, pan), q')
  {
    hide Switched, StreamBit;
  }

  lemma SwitchedReads(b: Bounds, p: Part, c: Choice, buffer: seq<Byte>, at: nat)
    requires b.Valid() && PartInv(b, p) && CanSend(b, p, c)
    requires Stream(buffer, at, |PartBits(b, p, c)|) == PartBits(b, p, c)
    ensures Switched(b, p, !c.Off?, buffer, at) == (Received(p, c), at + |PartBits(b, p, c)|)
  {
    hide *;
    if c.Off? {
      NoPartBits(b, p, c);
      SwitchedOff(b, p, c, buffer, at);
    } else {
      PartBitsAre(b, p, c);
      ElementReads(b, p, c.Time?, Diffs(p, c), buffer, at);
      SwitchedOn(b, p, c, buffer, at);
    }
  }

  lemma SwitchedOff(b: Bounds, p: Part, c: Choice, buffer: seq<Byte>, at: nat)
    requires c.Off?
    ensures Switched(b, p, false, buffer, at) == (Received(p, c), at)
  {
    hide Element, Diffs;
  }

  lemma SwitchedOn(b: Bounds, p: Part, c: Choice, buffer: seq<Byte>, at: nat)
    requires TimeFits(p, c) && !c.Off?
    requires Element(b, p, buffer, at).0 == p.(dt := c.Time?, data := Diffs(p, c))
    ensures Switched(b, p, true, buffer, at) == (Received(p, c), Element(b, p, buffer, at).1)
  {
    hide Element, Diffs;
  }

  lemma NoPartBits(b: Bounds, p: Part, c: Choice)
    requires b.Valid() && PartInv(b, p) && CanSend(b, p, c) && c.Off?
    ensures PartBits(b, p, c) == []
  {
  }

  lemma PartDecodes(b: Bounds, p: Part, c: Choice)
    requires b.Valid() && PartInv(b, p) && CanSend(b, p, c)
    ensures PartInv(b, Received(p, c))
    ensures var d := Delta(b, Received(p, c).(err := false));
            && !d.err && d.enable == !c.Off? && d.good == p.good && d.prev == p.prev && d.had == p.had
            && d.index == if c.Off? then p.index else c.target
  {
    match c
    case Off =>
    case Freq(s) => FreqRoundTrip(b, s);
    case Time(s) => TimeRoundTrip(b, p.prev, s);
  }

  /**
    * End to end: from any reachable state, the bits of a frame give the decoder exactly
    * the indices that were sent, as the current, the good and the remembered ones.
    */
  lemma FrameArrives(ps: Ps, sa: Choice, pan: Choice, buffer: seq<Byte>, at: nat)
    requires Inv(ps) && CanSend(SA, ps.sa, sa) && CanSend(PAN, ps.pan, pan)
    requires Stream(buffer, at, |FrameBits(ps, sa, pan)|) == FrameBits(ps, sa, pan)
    ensures var (q, end) := Data(ps, buffer, at);
            && end == at + |FrameBits(ps, sa, pan)| && Inv(q)
            && var d := Decode(q, false);
               && !d.sa.err && !d.pan.err && d.sa.had == !sa.Off? && d.pan.had == !pan.Off?
               && (!sa.Off? ==> d.sa.index == d.sa.prev == d.sa.good == sa.target)
               && (!pan.Off? ==> d.pan.index == d.pan.prev == d.pan.good == pan.target)
               && (sa.Off? ==> d.sa.index == ps.sa.index)
  {
    DataReads(ps, sa, pan, buffer, at);
    BothDecode(ps, sa, pan);
    hide *;
  }

  /** What is decoded from a frame that has been read. */
  lemma BothDecode(ps: Ps, sa: Choice, pan: Choice)
    requires Inv(ps) && CanSend(SA, ps.sa, sa) && CanSend(PAN, ps.pan, pan)
    ensures var q := Ps(true, SaReceived(ps, sa), PanReceived(ps, pan));
            && Inv(q)
            && var d := Decode(q, false);
               && !d.sa.err && !d.pan.err && d.sa.had == !sa.Off? && d.pan.had == !pan.Off?
               && (!sa.Off? ==> d.sa.index == d.sa.prev == d.sa.good == sa.target)
               && (!pan.Off? ==> d.pan.index == d.pan.prev == d.pan.good == pan.target)
               && (sa.Off? ==> d.sa.index == ps.sa.index)
  {
    PartDecodes(SA, ps.sa, sa);
    PartDecodes(PAN, ps.pan, pan);
    hide Delta, PartInv, CanSend, Diffs;
  }

  // ----- errors

  /**
    * Concealment: when an ambience index had to be clipped, both parts fall back to the
    * last frame's switches and, where switched on, to the last good indices.
    */
  lemma ClippedIsConcealed(ps: Ps)
    requires Inv(ps) && !ps.sa.err && Delta(SA, ps.sa).err
    ensures var d := DeltaDecode(ps);
            && d.sa.enable == ps.sa.had && d.pan.err
            && (d.sa.enable ==> d.sa.index == ps.sa.good)
            && d.pan.index == ps.pan.good && d.sa.good == ps.sa.good && d.pan.good == ps.pan.good
            && (d.pan.enable ==> ps.pan.had)
  {
    hide InFreq, InTime, FreqOk;
  }

  /** The differences can be used: those in time only if there was a frame before. */
  predicate Usable(p: Part) {
    p.enable && (p.dt ==> p.had)
  }

  predicate Unclipped(b: Bounds, p: Part)
    requires b.Valid() && PartInv(b, p)
  {
    if p.dt then TimeOk(b, p.prev, p.data) else FreqOk(b, p.data)
  }

  function Sums(b: Bounds, p: Part): seq<int>
    requires b.Valid() && PartInv(b, p)
  {
    if p.dt then InTime(b, p.prev, p.data) else InFreq(b, p.data)
  }

  /** Ambience was to be decoded, and a sum had to be clipped. */
  predicate Lost(ps: Ps)
    requires Inv(ps)
  {
    Usable(ps.sa) && !Unclipped(SA, ps.sa)
  }

  lemma DeltaIs(b: Bounds, p: Part)
    requires b.Valid() && PartInv(b, p) && !p.err
    ensures var d := Delta(b, p);
            && d.enable == Usable(p) && d.err == (Usable(p) && !Unclipped(b, p))
            && d.index == (if Usable(p) then Sums(b, p) else p.index)
            && d.had == p.had && d.prev == p.prev && d.good == p.good
  {
    hide InFreq, InTime, FreqOk, TimeOk;
  }

  /** A part after a frame: what it plays with is remembered for the next one. */
  predicate Plays(d: Part, on: bool, s: seq<int>) {
    d.enable == d.had == on && (on ==> d.index == d.prev == d.good == s)
  }

  /** A part goes on with the indices s where it is on, and otherwise as it was. */
  predicate Follows(d: Part, p: Part, on: bool, s: seq<int>) {
    Plays(d, on, s) && (!on ==> d.prev == p.prev && d.good == p.good)
  }

  /** Both parts before anything is decoded. */
  function Cleared(ps: Ps): (c: Ps)
    requires Inv(ps)
    ensures Inv(c) && Lost(c) == Lost(ps)
  {
    ps.(sa := ps.sa.(err := false), pan := ps.pan.(err := false))
  }

  lemma LostFrame(ps: Ps)
    requires Inv(ps) && Lost(ps) && !ps.sa.err
    ensures var d := DeltaDecode(ps);
            && d.sa.enable == ps.sa.had && d.pan.enable == ps.pan.had
            && (d.sa.enable ==> d.sa.index == ps.sa.good) && d.sa.good == ps.sa.good
            && d.sa.prev == ps.sa.prev && d.sa.had == ps.sa.had
            && d.pan == ps.pan.(enable := ps.pan.had, err := true)
  {
    var f := ps.pan.(enable := ps.pan.had, err := true);
    assert PartInv(PAN, f);
    hide Delta, Sums, Unclipped, PartInv;
    DeltaIs(SA, ps.sa);
    OnAsBefore(f);
  }

  /** A panning part switched on because it was before; its error makes it fall back. */
  lemma OnAsBefore(p: Part)
    requires PartInv(PAN, p) && p.enable == p.had && p.err && p.index == p.good
    ensures PartInv(PAN, p) && (if p.enable then Settle(Delta(PAN, p)) else p) == p
  {
    hide InFreq, InTime, FreqOk, TimeOk;
  }

  lemma KeptFrame(ps: Ps)
    requires Inv(ps) && !Lost(ps) && !ps.sa.err && !ps.pan.err
    ensures var d := DeltaDecode(ps);
            && d.sa.enable == Usable(ps.sa) && d.pan.enable == Usable(ps.pan)
            && (if d.sa.enable then d.sa.index == d.sa.good == Sums(SA, ps.sa) else d.sa.good == ps.sa.good)
            && d.sa.prev == ps.sa.prev && d.pan.prev == ps.pan.prev
            && d.pan.index == d.pan.good
            && d.pan.good == if Usable(ps.pan) && Unclipped(PAN, ps.pan) then Sums(PAN, ps.pan) else ps.pan.good
  {
    hide Delta, Sums, Unclipped, PartInv;
    DeltaIs(SA, ps.sa);
    DeltaIs(PAN, ps.pan);
  }

  /**
    * Every outcome of a frame. Lost ambience takes panning with it: both keep the last
    * frame's switches and the last good indices. A clipped panning index costs panning alone.
    */
  lemma FrameIsDecoded(ps: Ps)
    requires Inv(ps) && ps.available
    ensures var d, lost := Decode(ps, false), Lost(ps);
            && !d.available && d.pan.index == d.pan.good
            && Follows(d.sa, ps.sa, if lost then ps.sa.had else Usable(ps.sa), if lost then ps.sa.good else Sums(SA, ps.sa))
            && Follows(d.pan, ps.pan, if lost then ps.pan.had else Usable(ps.pan),
                       if lost || !Unclipped(PAN, ps.pan) then ps.pan.good else Sums(PAN, ps.pan))
  {
    var c := Cleared(ps);
    if Lost(ps) {
      LostFrame(c);
    } else {
      KeptFrame(c);
    }
    assert Sums(SA, c.sa) == Sums(SA, ps.sa) && Sums(PAN, c.pan) == Sums(PAN, ps.pan);
    assert Unclipped(PAN, c.pan) == Unclipped(PAN, ps.pan);
    hide DeltaDecode, Sums, Unclipped, PartInv, Lost, Usable;
  }

  /** When parameters are guessed, both parts play on with what they have, marked as erroneous. */
  lemma GuessPlaysOn(ps: Ps)
    requires Inv(ps)
    ensures var d := Decode(ps, true);
            && !d.available && d.sa.err && d.pan.err
            && d.sa.enable == d.sa.had == ps.sa.enable && d.pan.enable == d.pan.had == ps.pan.enable
            && d.sa.index == ps.sa.index && d.sa.good == ps.sa.good && d.pan.index == d.pan.good == ps.pan.good
            && d.sa.prev == (if ps.sa.enable then ps.sa.index else ps.sa.prev)
            && d.pan.prev == (if ps.pan.enable then ps.pan.index else ps.pan.prev)
  {
  }

  /** Without data and without a guess, only the frame before is forgotten. */
  lemma NoDataForgets(ps: Ps)
    requires Inv(ps) && !ps.available
    ensures var d := Decode(ps, false);
            && d.sa == ps.sa.(prev := d.sa.prev) && d.pan == ps.pan.(prev := d.pan.prev) && !d.available
            && |d.sa.prev| == 8 && |d.pan.prev| == 20
            && (forall k :: 0 <= k < 8 ==> d.sa.prev[k] == 0) && (forall k :: 0 <= k < 20 ==> d.pan.prev[k] == 0)
  {
  }

  /**
    * Recovery: a frame whose ambience comes as differences in frequency that need no
    * clipping makes any two decoders agree on it, whatever went wrong before.
    */
  lemma FreqFrameResyncs(ps: Ps, ps': Ps)
    requires Inv(ps) && Inv(ps') && ps.available && ps'.available
    requires ps.sa.enable && ps'.sa.enable && !ps.sa.dt && !ps'.sa.dt && ps.sa.data == ps'.sa.data
    requires FreqOk(SA, ps.sa.data)
    ensures var d, d' := Decode(ps, false).sa, Decode(ps', false).sa;
            d.had && d'.had && d.index == d.prev == d.good == d'.index == d'.prev == d'.good
  {
    hide InFreq, FreqOk, PartInv, Inv;
  }
}
