/** drm_dec.c: `drm_ps_info` and the functions that update it. */
module DrmPsInfo {
  import opened BitReader
  import opened DrmTree
  import opened DrmPs

  /** The SA or the PAN fields of `drm_ps_info`. */
  class PartInfo {
    const b: Bounds
    var enable: bool
    var dt: bool
    var had: bool
    var err: bool
    const data: array<int>
    const index: array<int>
    const prev: array<int>
    const good: array<int>

    ghost function Repr(): set<object> {
      {this, data, index, prev, good}
    }

    function V(): Part
      reads this, data, index, prev, good
    {
      Part(enable, dt, had, err, data[..], index[..], prev[..], good[..])
    }

    ghost predicate Valid()
      reads this, data, index, prev, good
    {
      && data != index && data != prev && data != good && index != prev && index != good && prev != good
      && b.Valid() && PartInv(b, V())
    }

    constructor (b: Bounds)
      requires b.Valid()
      ensures Valid() && this.b == b && V() == Fresh(b) && fresh(Repr())
    {
      this.b := b;
      enable, dt, had, err := false, false, false, false;
      data := new int[b.bands](_ => 0);
      index := new int[b.bands](_ => 0);
      prev := new int[b.bands](_ => 0);
      good := new int[b.bands](_ => 0);
    }

    /** The first block of `drm_ps_delta_decode` for a part that is switched on. */
    method DeltaDecode()
      requires Valid() && enable
      modifies this, index
      ensures Valid() && V() == Delta(b, old(V()))
    {
      DeltaInv(b, V());
      if dt && !had {
        enable := false;
      } else if dt {
        err := DecodeTime(b, data, prev, index, err);
      } else {
        err := DecodeFreq(b, data, index, err);
      }
      hide PartInv, InFreq, InTime, FreqOk, TimeOk;
    }

    /** Back to the switch of the last frame. */
    method Force(e: bool)
      requires Valid()
      modifies this`enable, this`err
      ensures Valid() && V() == old(V()).(enable := old(had), err := e)
    {
      enable := had;
      err := e;
    }

    /** Sets or clears the error flag. */
    method Mark(e: bool)
      requires Valid()
      modifies this`err
      ensures Valid() && V() == old(V()).(err := e)
    {
      err := e;
    }

    /** Back to the last good indices after an error, otherwise these are the good ones. */
    method SettleBands()
      requires Valid()
      modifies index, good
      ensures Valid() && V() == Settle(old(V()))
    {
      SettleInv(b, V());
      hide PartInv;
      if err {
        Copy(index, good);
      } else {
        Copy(good, index);
      }
    }

    /** The end of `drm_ps_decode`. */
    method RememberBands()
      requires Valid()
      modifies this`had, prev
      ensures Valid() && V() == Remember(old(V()))
    {
      if enable {
        had := true;
        Copy(prev, index);
      } else {
        had := false;
      }
    }

    /** `memset` of the previous indices. */
    method Forget()
      requires Valid()
      modifies prev
      ensures Valid() && V() == old(V()).(prev := Silence(b.bands))
    {
      for k := 0 to prev.Length
        invariant prev[..k] == Silence(b.bands)[..k]
      {
        prev[k] := 0;
      }
    }

    /** `drm_ps_sa_element`, `drm_ps_pan_element` */
    method ReadElement(ld: BitFile)
      requires Valid() && ld.Valid() && {ld as object} !! Repr()
      modifies ld, this`dt, data
      ensures Valid() && ld.Valid() && (V(), ld.Pos()) == Element(b, old(V()), ld.buffer, old(ld.Pos()))
    {
      ElementInv(b, V(), ld.buffer, ld.Pos());
      dt := ReadFlagAndBands(ld, b, data, V());
      hide PartInv, Element, ld.Valid, ld.Pos;
    }
  }

  method ReadFlagAndBands(ld: BitFile, b: Bounds, data: array<int>, ghost p: Part) returns (dt: bool)
    requires ld.Valid() && data.Length == b.bands
    modifies ld, data
    ensures ld.Valid() && (p.(dt := dt, data := data[..]), ld.Pos()) == Element(b, p, ld.buffer, old(ld.Pos()))
  {
    hide *;
    ElementIs(b, p, StreamBit(ld.buffer, ld.Pos()), ld.buffer, ld.Pos());
    var bit := ld.Get1Bit();
    dt := bit == 1;
    ReadBands(ld, b.Differences(dt), data);
  }

  /** `sa_delta_clip`, `pan_delta_clip`, with the error flag they may set. */
  method DeltaClip(b: Bounds, i: int, err: bool) returns (c: int, err': bool)
    requires b.Valid()
    ensures c == b.Clip(i) && err' == (err || !b.Has(i))
  {
    if i < b.lo {
      return b.lo, true;
    } else if i > b.hi {
      return b.hi, true;
    } else {
      return i, err;
    }
  }

  /** Differences in time, band by band. */
  method DecodeTime(b: Bounds, data: array<int>, prev: array<int>, index: array<int>, err: bool) returns (err': bool)
    requires b.Valid() && data.Length == prev.Length == index.Length && index != data && index != prev
    modifies index
    ensures index[..] == InTime(b, prev[..], data[..]) && err' == (err || !TimeOk(b, prev[..], data[..]))
  {
    ghost var p, d := prev[..], data[..];
    err' := err;
    for band := 0 to data.Length
      invariant forall k :: 0 <= k < band ==> index[k] == b.Clip(p[k] + d[k])
      invariant err' == (err || exists k :: 0 <= k < band && !b.Has(p[k] + d[k]))
    {
      index[band], err' := DeltaClip(b, prev[band] + data[band], err');
    }
  }

  /** Differences in frequency: each band from the one below. */
  method DecodeFreq(b: Bounds, data: array<int>, index: array<int>, err: bool) returns (err': bool)
    requires b.Valid() && data.Length == index.Length == b.bands && index != data
    modifies index
    ensures index[..] == InFreq(b, data[..]) && err' == (err || !FreqOk(b, data[..]))
  {
    ghost var d := data[..];
    hide InFreq, FreqOk;
    FreqNext(b, d, 0);
    index[0], err' := DeltaClip(b, data[0], err);
    for band := 1 to data.Length
      invariant index[..band] == InFreq(b, d[..band])
      invariant err' == (err || !FreqOk(b, d[..band]))
    {
      FreqNext(b, d, band);
      ghost var r := index[..band];
      index[band], err' := DeltaClip(b, index[band - 1] + data[band], err');
      assert index[..band + 1] == r + [index[band]];
    }
    assert d[..data.Length] == d && index[..data.Length] == index[..];
  }

  /** One difference for each band. */
  method ReadBands(ld: BitFile, huff: Tree, data: array<int>)
    requires ld.Valid()
    modifies ld, data
    ensures ld.Valid() && (data[..], ld.Pos()) == WalkMany(huff, data.Length, ld.buffer, old(ld.Pos()))
  {
    hide *;
    ghost var at := ld.Pos();
    NoneWalked(huff, ld.buffer, at);
    for band := 0 to data.Length
      invariant ld.Valid() && (data[..band], ld.Pos()) == WalkMany(huff, band, ld.buffer, at)
    {
      OneMoreWalked(huff, band, ld.buffer, at);
      ghost var vs := data[..band];
      var v := HuffDec(ld, huff);
      data[band] := v;
      assert data[..band + 1] == vs + [v];
    }
    assert data[..data.Length] == data[..];
  }

  lemma NoneWalked(t: Tree, buffer: seq<Byte>, at: nat)
    ensures WalkMany(t, 0, buffer, at) == ([], at) && 0 < t.Rows()
  {
  }

  lemma OneMoreWalked(t: Tree, n: nat, buffer: seq<Byte>, at: nat)
    ensures var (vs, q) := WalkMany(t, n, buffer, at);
            var (v, q') := Walk(t, 0, buffer, q);
            WalkMany(t, n + 1, buffer, at) == (vs + [v], q')
  {
    hide Walk;
  }

  /** `drm_ps_info` */
  class Info {
    var available: bool
    const sa: PartInfo
    const pan: PartInfo

    function V(): Ps
      reads this, sa, sa.data, sa.index, sa.prev, sa.good, pan, pan.data, pan.index, pan.prev, pan.good
    {
      Ps(available, sa.V(), pan.V())
    }

    ghost predicate Parts()
      reads this, sa, sa.data, sa.index, sa.prev, sa.good, pan, pan.data, pan.index, pan.prev, pan.good
    {
      sa.b == SA && pan.b == PAN && sa.Repr() !! pan.Repr() && sa.Valid() && pan.Valid()
    }

    ghost predicate Valid()
      reads this, sa, sa.data, sa.index, sa.prev, sa.good, pan, pan.data, pan.index, pan.prev, pan.good
    {
      Parts() && Inv(V())
    }

    /** `drm_ps_init` */
    constructor ()
      ensures Valid() && V() == Init()
      ensures fresh(sa.Repr()) && fresh(pan.Repr())
    {
      available := false;
      sa := new PartInfo(SA);
      pan := new PartInfo(PAN);
      new;
      InitInv();
    }

    /** `drm_ps_data`, which returns the number of bits it read, in 16 bits. */
    method Data(ld: BitFile) returns (bits: nat)
      requires Valid() && ld.Valid() && ld as object !in {this} + sa.Repr() + pan.Repr()
      modifies this, ld, sa, sa.data, pan, pan.data
      ensures Valid() && ld.Valid() && (V(), ld.Pos()) == DrmPs.Data(old(V()), ld.buffer, old(ld.Pos()))
      ensures bits == (ld.Pos() - old(ld.Pos())) % 0x1_0000
    {
      hide *;
      var before := ld.GetProcessedBits();
      ReadFrame(ld);
      var after := ld.GetProcessedBits();
      SixteenBits(before, after);
      bits := (after % 0x1_0000 - before % 0x1_0000) % 0x1_0000;
    }

    method ReadFrame(ld: BitFile)
      requires Valid() && ld.Valid() && ld as object !in {this} + sa.Repr() + pan.Repr()
      modifies this, ld, sa, sa.data, pan, pan.data
      ensures Valid() && ld.Valid() && (V(), ld.Pos()) == DrmPs.Data(old(V()), ld.buffer, old(ld.Pos()))
    {
      hide *;
      HasParts();
      DataInv(V(), ld.buffer, ld.Pos());
      ReadBoth(ld, V());
      SetAvailable(true);
      IsValid();
    }

    lemma HasParts()
      requires Valid()
      ensures Parts() && Inv(V()) && V().available == available
    {
    }

    lemma IsValid()
      requires Parts() && Inv(V())
      ensures Valid()
    {
    }

    method SetAvailable(b: bool)
      requires Parts()
      modifies this
      ensures Parts() && V() == old(V()).(available := b)
    {
      hide PartInv;
      available := b;
    }

    /** The two switches and the parts switched on. */
    method ReadBoth(ld: BitFile, ghost was: Ps)
      requires Parts() && ld.Valid() && ld as object !in {this} + sa.Repr() + pan.Repr() && was == V()
      modifies ld, sa, sa.data, pan, pan.data
      ensures Parts() && ld.Valid()
      ensures (V().(available := true), ld.Pos()) == DrmPs.Data(was, ld.buffer, old(ld.Pos()))
    {
      ghost var at := ld.Pos();
      hide Switched, StreamBit, PartInv, ld.Valid, ld.Pos, DrmPs.Data;
      var enSa, enPan := TwoSwitches(ld);
      ReadSa(ld, enSa);
      DataIs(was, ld.buffer, at, sa.V(), ld.Pos());
      ReadPan(ld, enPan);
    }

    method ReadSa(ld: BitFile, on: bool)
      requires Parts() && ld.Valid() && ld as object !in {this} + sa.Repr() + pan.Repr()
      modifies ld, sa, sa.data
      ensures Parts() && ld.Valid() && available == old(available) && pan.V() == old(pan.V())
      ensures (sa.V(), ld.Pos()) == Switched(SA, old(sa.V()), on, ld.buffer, old(ld.Pos()))
    {
      hide Switched, PartInv, ld.Valid, ld.Pos;
      ReadSwitched(ld, sa, on);
    }

    method ReadPan(ld: BitFile, on: bool)
      requires Parts() && ld.Valid() && ld as object !in {this} + sa.Repr() + pan.Repr()
      modifies ld, pan, pan.data
      ensures Parts() && ld.Valid() && available == old(available) && sa.V() == old(sa.V())
      ensures (pan.V(), ld.Pos()) == Switched(PAN, old(pan.V()), on, ld.buffer, old(ld.Pos()))
    {
      hide Switched, PartInv, ld.Valid, ld.Pos;
      ReadSwitched(ld, pan, on);
    }

    /** `drm_ps_delta_decode` */
    method DeltaDecode()
      requires Valid()
      modifies sa, sa.index, sa.good, pan, pan.index, pan.good
      ensures Valid() && V() == DrmPs.DeltaDecode(old(V()))
    {
      ghost var was := V();
      DeltaDecodeInv(was);
      DecodeSa();
      ForceLast();
      SettleSa();
      DecodePan();
      hide Delta, Settle, PartInv, Inv;
    }

    /** The ambience differences. */
    method DecodeSa()
      requires Parts()
      modifies sa, sa.index
      ensures Parts() && V() == old(V()).(sa := Delta(SA, old(sa.V())))
    {
      OffStays(SA, sa.V());
      hide PartInv, Delta;
      if sa.enable {
        sa.DeltaDecode();
      }
    }

    /** An error implies that the panning is undecodable, too. */
    method ForceLast()
      requires Parts()
      modifies sa`enable, sa`err, pan`enable, pan`err
      ensures Parts() && V() == DrmPs.Force(old(V()))
    {
      hide PartInv;
      if sa.err {
        pan.Force(true);
        sa.Force(true);
      }
    }

    method SettleSa()
      requires Parts()
      modifies sa.index, sa.good
      ensures Parts() && V() == old(V()).(sa := if old(sa.enable) then Settle(old(sa.V())) else old(sa.V()))
    {
      hide PartInv, Settle;
      if sa.enable {
        sa.SettleBands();
      }
    }

    /** The panning differences. */
    method DecodePan()
      requires Parts()
      modifies pan, pan.index, pan.good
      ensures Parts()
      ensures V() == old(V()).(pan := if old(pan.enable) then Settle(Delta(PAN, old(pan.V()))) else old(pan.V()))
    {
      hide PartInv, Delta, Settle;
      if pan.enable {
        pan.DeltaDecode();
        pan.SettleBands();
      }
    }

    lemma DecodeIs(ps: Ps, guess: bool)
      requires Inv(ps)
      ensures !ps.available && !guess ==>
                DrmPs.Decode(ps, guess) == ps.(sa := ps.sa.(prev := Silence(SA.bands)), pan := ps.pan.(prev := Silence(PAN.bands)))
      ensures ps.available || guess ==>
                var m := ps.(sa := ps.sa.(err := guess), pan := ps.pan.(err := guess));
                && Inv(m)
                && var d := if guess then m else DrmPs.DeltaDecode(m);
                   DrmPs.Decode(ps, guess) == Ps(false, Remember(d.sa), Remember(d.pan))
    {
      hide DrmPs.DeltaDecode, Remember, PartInv;
      CopiesInv(ps, guess);
    }

    /** The state part of `drm_ps_decode`. */
    method Decode(guess: bool)
      requires Valid()
      modifies this, sa, sa.index, sa.good, sa.prev, pan, pan.index, pan.good, pan.prev
      ensures Valid() && V() == DrmPs.Decode(old(V()), guess)
    {
      hide *;
      HasParts();
      DecodeInv(V(), guess);
      DecodeIs(V(), guess);
      if !available && !guess {
        ForgetBoth();
      } else {
        MarkBoth(guess);
        IsValid();
        if !guess {
          DeltaDecode();
          HasParts();
        }
        SetAvailable(false);
        RememberBoth();
      }
      IsValid();
    }

    method ForgetBoth()
      requires Parts()
      modifies sa.prev, pan.prev
      ensures Parts()
      ensures V() == old(V()).(sa := old(V()).sa.(prev := Silence(SA.bands)), pan := old(V()).pan.(prev := Silence(PAN.bands)))
    {
      hide PartInv;
      sa.Forget();
      pan.Forget();
    }

    method MarkBoth(e: bool)
      requires Parts()
      modifies sa`err, pan`err
      ensures Parts() && V() == old(V()).(sa := old(V()).sa.(err := e), pan := old(V()).pan.(err := e))
    {
      hide PartInv;
      sa.Mark(e);
      pan.Mark(e);
    }

    method RememberBoth()
      requires Parts()
      modifies sa`had, sa.prev, pan`had, pan.prev
      ensures Parts() && V() == old(V()).(sa := Remember(old(V()).sa), pan := Remember(old(V()).pan))
    {
      hide PartInv, Remember;
      sa.RememberBands();
      pan.RememberBands();
    }
  }

  method TwoSwitches(ld: BitFile) returns (a: bool, b: bool)
    requires ld.Valid()
    modifies ld
    ensures ld.Valid() && ld.Pos() == old(ld.Pos()) + 2
    ensures a == StreamBit(ld.buffer, old(ld.Pos())) && b == StreamBit(ld.buffer, old(ld.Pos()) + 1)
  {
    hide *;
    var enSa := ld.Get1Bit();
    var enPan := ld.Get1Bit();
    return enSa == 1, enPan == 1;
  }

  lemma SixteenBits(a: nat, b: nat)
    ensures (b % 0x1_0000 - a % 0x1_0000) % 0x1_0000 == (b - a) % 0x1_0000
  {
  }

  /** A part's switch, and its element when it is on. */
  method ReadSwitched(ld: BitFile, part: PartInfo, on: bool)
    requires part.Valid() && ld.Valid() && {ld as object} !! part.Repr()
    modifies ld, part`enable, part`dt, part.data
    ensures part.Valid() && ld.Valid()
    ensures (part.V(), ld.Pos()) == Switched(part.b, old(part.V()), on, ld.buffer, old(ld.Pos()))
  {
    SwitchedInv(part.b, part.V(), on, ld.buffer, ld.Pos());
    if on {
      part.ReadElement(ld);
    }
    part.enable := on;
    hide PartInv, Element, ld.Valid, ld.Pos;
  }

  /** The copy loops and `memcpy` between index arrays. */
  method Copy(dst: array<int>, src: array<int>)
    requires dst != src && dst.Length == src.Length
    modifies dst
    ensures dst[..] == src[..]
  {
    for k := 0 to dst.Length
      invariant dst[..k] == src[..k]
    {
      dst[k] := src[k];
    }
  }

  /** One more band of differences in frequency. */
  lemma FreqNext(b: Bounds, d: seq<int>, k: nat)
    requires b.Valid() && k < |d|
    ensures k == 0 ==> InFreq(b, d[..k]) == [] && FreqOk(b, d[..k])
    ensures var r := InFreq(b, d[..k]);
            && InFreq(b, d[..k + 1]) == r + [b.Clip(Before(r, k) + d[k])]
            && (FreqOk(b, d[..k + 1]) <==> FreqOk(b, d[..k]) && b.Has(Before(r, k) + d[k]))
  {
    assert d[..k + 1][..k] == d[..k];
  }
}
