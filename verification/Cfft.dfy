/**
  The mixed-radix FFT on arrays: `cfftf1pos` and `cfftf1neg` run the factors of n
  one after another, moving the data to and fro between two arrays.
 */
module Cfft {
  import Arith
  import opened Complex
  import opened FftStage

  // ----- blocks

  function Block(a: seq<C>, len: nat, k: nat): (b: seq<C>)
    requires (k + 1) * len <= |a|
    ensures |b| == len
  {
    BlockBound(len, k);
    a[k * len..(k + 1) * len]
  }

  lemma BlockBound(len: nat, k: nat)
    ensures (k + 1) * len == k * len + len
  {
  }

  lemma BlockFits(l: nat, len: nat, k: nat)
    requires k < l
    ensures (k + 1) * len <= l * len
  {
    Arith.MulNonneg(l - k - 1, len);
    assert l * len == (k + 1) * len + (l - k - 1) * len;
  }

  /** Block k still has the outputs k, k + l1, k + 2 l1, ... of the whole transform. */
  ghost predicate BlockOutput(a: seq<C>, x: seq<C>, v: C, l1: nat, len: nat, k: nat, m: nat) {
    (k + 1) * len <= |a| && Poly(Block(a, len, k), Pow(Pow(v, l1), m)) == Dft(x, v, k + l1 * m)
  }

  ghost predicate Transforms(a: seq<C>, x: seq<C>, v: C, l1: nat, len: nat) {
    && |a| == |x| == l1 * len
    && forall k: nat, m: nat :: k < l1 && m < len ==> BlockOutput(a, x, v, l1, len, k, m)
  }

  /** b holds the transform of x with root v. */
  ghost predicate IsTransform(b: seq<C>, x: seq<C>, v: C) {
    |b| == |x| && forall m :: 0 <= m < |x| ==> b[m] == Dft(x, v, m)
  }

  lemma TransformsStart(x: seq<C>, v: C)
    ensures Transforms(x, x, v, 1, |x|)
  {
    PowSmall(v);
    forall k: nat, m: nat | k < 1 && m < |x| ensures BlockOutput(x, x, v, 1, |x|, k, m) {
      assert Block(x, |x|, 0) == x;
    }
  }

  lemma TransformsEnd(a: seq<C>, x: seq<C>, v: C, n: nat)
    requires Transforms(a, x, v, n, 1)
    ensures |a| == |x| == n && IsTransform(a, x, v)
  {
    forall k | 0 <= k < n ensures a[k] == Dft(x, v, k) {
      assert BlockOutput(a, x, v, n, 1, k, 0);
      assert Block(a, 1, k) == [a[k]];
      PolyConstant(a[k], Pow(Pow(v, n), 0));
    }
  }

  // ----- one pass

  /**
    What a radix pass is told: its radix, the blocks l1, the new block length ido,
    the direction and the constants. The root v is there for the specification; no
    value computed by a pass depends on it.
   */
  datatype Pass = Pass(ip: nat, l1: nat, ido: nat, pos: bool, c: Consts, v: C) {
    predicate Valid() {
      2 <= ip <= 5 && l1 > 0 && ido > 0
    }

    function Size(): nat {
      l1 * (ip * ido)
    }

    /** Block k, input r of butterfly i. The ido = 1 branch of `passf2` is written for l1 = 1 only. */
    function InAt(k: nat, r: nat, i: nat): nat {
      if ip == 2 && ido == 1 then 4 * k + r else ip * k * ido + i + r * ido
    }

    function OutAt(q: nat, k: nat, i: nat): nat {
      if ip == 2 && ido == 1 then 2 * k + q * l1 else k * ido + i + q * l1 * ido
    }

    predicate Proper() {
      ip == 2 && ido == 1 ==> l1 == 1
    }
  }

  ghost predicate IsStage(s: Pass, cc: seq<C>, ch: seq<C>)
    requires s.Valid()
  {
    && |cc| == |ch| == s.Size()
    && forall q: nat, k: nat :: q < s.ip && k < s.l1 ==> StageBlock(s, cc, ch, q, k)
  }

  ghost predicate StageBlock(s: Pass, cc: seq<C>, ch: seq<C>, q: nat, k: nat)
    requires s.Valid() && q < s.ip
  {
    && (k + s.l1 * q + 1) * s.ido <= |ch| && (k + 1) * (s.ip * s.ido) <= |cc|
    && Block(ch, s.ido, k + s.l1 * q)
       == NewBlock(Block(cc, s.ip * s.ido, k), s.ido, s.ip, q, s.pos, s.c, Pow(s.v, s.l1))
  }

  /** A pass turns blocks that carry the transform into shorter ones that do. */
  lemma StageStep(s: Pass, cc: seq<C>, ch: seq<C>, x: seq<C>)
    requires s.Valid() && Handled(s.ip, s.pos) && Exact(s.c)
    requires IsStage(s, cc, ch) && Transforms(cc, x, s.v, s.l1, s.ip * s.ido)
    requires Pow(Pow(s.v, s.l1), s.ido) == Omega(s.ip, s.pos, s.c)
    requires Pow(Pow(s.v, s.l1), s.ip * s.ido) == ONE
    ensures Transforms(ch, x, s.v, s.l1 * s.ip, s.ido)
  {
    hide Poly, Pow, Omega, Exact, NewBlock, Block, Dft;
    Arith.MulAssoc(s.l1, s.ip, s.ido);
    forall k': nat, m: nat | k' < s.l1 * s.ip && m < s.ido
      ensures BlockOutput(ch, x, s.v, s.l1 * s.ip, s.ido, k', m)
    {
      var q, k := SplitIndex(s.l1, s.ip, k');
      StageOutput(s, cc, ch, x, q, k, m);
    }
  }

  lemma SplitIndex(l1: nat, ip: nat, k': nat) returns (q: nat, k: nat)
    requires l1 > 0 && k' < l1 * ip
    ensures q < ip && k < l1 && k' == k + l1 * q
  {
    q, k := Arith.DivMod(k', l1);
    if q >= ip {
      Arith.MulDist(l1, ip, q - ip);
      Arith.MulNonneg(l1, q - ip);
    }
  }

  lemma StageOutput(s: Pass, cc: seq<C>, ch: seq<C>, x: seq<C>, q: nat, k: nat, m: nat)
    requires s.Valid() && Handled(s.ip, s.pos) && Exact(s.c)
    requires IsStage(s, cc, ch) && Transforms(cc, x, s.v, s.l1, s.ip * s.ido)
    requires Pow(Pow(s.v, s.l1), s.ido) == Omega(s.ip, s.pos, s.c)
    requires Pow(Pow(s.v, s.l1), s.ip * s.ido) == ONE
    requires q < s.ip && k < s.l1 && m < s.ido
    ensures BlockOutput(ch, x, s.v, s.l1 * s.ip, s.ido, k + s.l1 * q, m)
  {
    hide Poly, Pow, Omega, Exact, NewBlock, Block, Dft;
    var W, M := Pow(s.v, s.l1), q + s.ip * m;
    OutputBound(s.ip, s.ido, q, m);
    assert StageBlock(s, cc, ch, q, k);
    assert BlockOutput(cc, x, s.v, s.l1, s.ip * s.ido, k, M);
    BlockStep(Block(cc, s.ip * s.ido, k), s.ido, s.ip, q, s.pos, s.c, W, m);
    PowMul(s.v, s.l1, s.ip);
    OutputIndex(s.l1, s.ip, q, k, m);
  }

  lemma OutputBound(ip: nat, ido: nat, q: nat, m: nat)
    requires q < ip && m < ido
    ensures q + ip * m < ip * ido
  {
    Arith.MulDist(ip, m, ido - m);
    Arith.MulGe(ip, ido - m);
  }

  lemma OutputIndex(l1: nat, ip: nat, q: nat, k: nat, m: nat)
    ensures k + l1 * (q + ip * m) == (k + l1 * q) + (l1 * ip) * m
  {
    Arith.MulDist(l1, q, ip * m);
    Arith.MulAssoc(l1, ip, m);
  }

  // ----- where a pass reads and writes

  lemma OutIndex(s: Pass, q: nat, k: nat, i: nat)
    requires s.Valid() && s.Proper() && q < s.ip && k < s.l1 && i < s.ido
    ensures s.OutAt(q, k, i) == (k + s.l1 * q) * s.ido + i < s.Size()
  {
    var b := k + s.l1 * q;
    if !(s.ip == 2 && s.ido == 1) {
      Arith.MulDist(s.ido, k, s.l1 * q);
    }
    BlockIndex(s.l1, s.ip, k, q);
    BlockFits(s.l1 * s.ip, s.ido, b);
    BlockBound(s.ido, b);
    Arith.MulAssoc(s.l1, s.ip, s.ido);
  }

  lemma BlockIndex(l1: nat, ip: nat, k: nat, q: nat)
    requires k < l1 && q < ip
    ensures k + l1 * q < l1 * ip
  {
    Arith.MulDist(l1, q, ip - q);
    Arith.MulGe(l1, ip - q);
  }

  lemma InIndex(s: Pass, k: nat, r: nat, i: nat)
    requires s.Valid() && s.Proper() && k < s.l1 && r < s.ip && i < s.ido
    ensures s.InAt(k, r, i) == k * (s.ip * s.ido) + (r * s.ido + i) < s.Size()
    ensures r * s.ido + i < s.ip * s.ido
  {
    if !(s.ip == 2 && s.ido == 1) {
      assert s.ip * k * s.ido == k * (s.ip * s.ido);
    }
    BlockFits(s.ip, s.ido, r);
    BlockBound(s.ido, r);
    BlockFits(s.l1, s.ip * s.ido, k);
    BlockBound(s.ip * s.ido, k);
  }

  /** Different butterflies and outputs go to different places. */
  lemma OutDistinct(s: Pass, q: nat, k: nat, i: nat, q': nat, k': nat, i': nat)
    requires s.Valid() && s.Proper() && q < s.ip && k < s.l1 && i < s.ido && q' < s.ip && k' < s.l1 && i' < s.ido
    requires s.OutAt(q, k, i) == s.OutAt(q', k', i')
    ensures q == q' && k == k' && i == i'
  {
    hide Pass.OutAt;
    OutIndex(s, q, k, i);
    OutIndex(s, q', k', i');
    SamePlace(s.ido, s.l1, q, k, i, q', k', i');
  }

  lemma SamePlace(ido: nat, l1: nat, q: nat, k: nat, i: nat, q': nat, k': nat, i': nat)
    requires i < ido && i' < ido && k < l1 && k' < l1
    requires (k + l1 * q) * ido + i == (k' + l1 * q') * ido + i'
    ensures q == q' && k == k' && i == i'
  {
    var b, b' := k + l1 * q, k' + l1 * q';
    Arith.MulComm(b, ido);
    Arith.MulComm(b', ido);
    Arith.Unique(ido, b, i, b', i');
    Arith.Unique(l1, q, k, q', k');
  }

  /** The inputs of butterfly (k, i). */
  function Inputs(s: Pass, cc: seq<C>, k: nat, i: nat): (x: seq<C>)
    requires s.Valid() && s.Proper() && |cc| == s.Size() && k < s.l1 && i < s.ido
    ensures |x| == s.ip
  {
    seq(s.ip, r requires 0 <= r < s.ip => InIndex(s, k, r, i); cc[s.InAt(k, r, i)])
  }

  /** Output q of butterfly (k, i), twiddled. */
  function Output(s: Pass, cc: seq<C>, q: nat, k: nat, i: nat): C
    requires s.Valid() && s.Proper() && |cc| == s.Size() && q < s.ip && k < s.l1 && i < s.ido
  {
    Mul(Butterfly(s.ip, s.pos, s.c, Inputs(s, cc, k, i))[q], Pow(Pow(Pow(s.v, s.l1), q), i))
  }

  ghost predicate Stored(s: Pass, cc: seq<C>, ch: seq<C>, q: nat, k: nat, i: nat)
    requires s.Valid() && s.Proper() && |cc| == |ch| == s.Size()
  {
    q < s.ip && k < s.l1 && i < s.ido ==>
      (OutIndex(s, q, k, i); ch[s.OutAt(q, k, i)] == Output(s, cc, q, k, i))
  }

  /** All butterflies before (k, i) have been stored. */
  ghost predicate Filled(s: Pass, cc: seq<C>, ch: seq<C>, k: nat, i: nat)
    requires s.Valid() && s.Proper() && |cc| == |ch| == s.Size()
  {
    forall q: nat, k': nat, i': nat :: k' < k || (k' == k && i' < i) ==> Stored(s, cc, ch, q, k', i')
  }

  lemma InputAt(s: Pass, cc: seq<C>, k: nat, i: nat, r: nat)
    requires s.Valid() && s.Proper() && |cc| == s.Size() && k < s.l1 && i < s.ido && r < s.ip
    ensures (k + 1) * (s.ip * s.ido) <= |cc|
    ensures Inputs(s, cc, k, i)[r] == Column(Block(cc, s.ip * s.ido, k), s.ido, s.ip, i)[r]
  {
    hide Column, Pass.InAt, Block;
    BlockFits(s.l1, s.ip * s.ido, k);
    InIndex(s, k, r, i);
    ColumnAt(Block(cc, s.ip * s.ido, k), s.ido, s.ip, i, r);
    BlockAt(cc, s.ip * s.ido, k, r * s.ido + i);
  }

  lemma InputsAreColumn(s: Pass, cc: seq<C>, k: nat, i: nat)
    requires s.Valid() && s.Proper() && |cc| == s.Size() && k < s.l1 && i < s.ido
    ensures (k + 1) * (s.ip * s.ido) <= |cc|
    ensures Inputs(s, cc, k, i) == Column(Block(cc, s.ip * s.ido, k), s.ido, s.ip, i)
  {
    hide Column, Pass.InAt, Block, Pass.Size, Inputs;
    InputAt(s, cc, k, i, 0);
    var x, y := Inputs(s, cc, k, i), Column(Block(cc, s.ip * s.ido, k), s.ido, s.ip, i);
    forall r | 0 <= r < s.ip ensures x[r] == y[r] {
      InputAt(s, cc, k, i, r);
    }
  }

  lemma AllStored(s: Pass, cc: seq<C>, ch: seq<C>)
    requires s.Valid() && s.Proper() && |cc| == |ch| == s.Size() && Filled(s, cc, ch, s.l1, 0)
    ensures IsStage(s, cc, ch)
  {
    hide Filled, Butterfly, NewBlock, Block, Stored;
    forall q: nat, k: nat | q < s.ip && k < s.l1 ensures StageBlock(s, cc, ch, q, k) {
      BlockStored(s, cc, ch, q, k);
    }
  }

  lemma BlockStored(s: Pass, cc: seq<C>, ch: seq<C>, q: nat, k: nat)
    requires s.Valid() && s.Proper() && |cc| == |ch| == s.Size() && Filled(s, cc, ch, s.l1, 0)
    requires q < s.ip && k < s.l1
    ensures StageBlock(s, cc, ch, q, k)
  {
    hide Butterfly, Pow, Mul, Inputs, Column, Block, NewBlock, Pass.OutAt;
    var bk := k + s.l1 * q;
    BlockIndex(s.l1, s.ip, k, q);
    BlockFits(s.l1 * s.ip, s.ido, bk);
    Arith.MulAssoc(s.l1, s.ip, s.ido);
    BlockFits(s.l1, s.ip * s.ido, k);
    BlockBound(s.ido, bk);
    var e := NewBlock(Block(cc, s.ip * s.ido, k), s.ido, s.ip, q, s.pos, s.c, Pow(s.v, s.l1));
    forall i | 0 <= i < s.ido ensures Block(ch, s.ido, bk)[i] == e[i] {
      assert Stored(s, cc, ch, q, k, i);
      OutIndex(s, q, k, i);
      InputsAreColumn(s, cc, k, i);
      BlockAt(ch, s.ido, bk, i);
      NewBlockAt(Block(cc, s.ip * s.ido, k), s.ido, s.ip, q, s.pos, s.c, Pow(s.v, s.l1), i);
    }
  }

  lemma BlockAt(a: seq<C>, len: nat, k: nat, i: nat)
    requires (k + 1) * len <= |a| && i < len
    ensures k * len + i < |a| && Block(a, len, k)[i] == a[k * len + i]
  {
    BlockBound(len, k);
  }

  lemma NewBlockAt(b: seq<C>, ido: nat, ip: nat, q: nat, pos: bool, c: Consts, W: C, i: nat)
    requires 2 <= ip <= 5 && |b| == ip * ido && q < ip && i < ido
    ensures NewBlock(b, ido, ip, q, pos, c, W)[i]
         == Mul(Butterfly(ip, pos, c, Column(b, ido, ip, i))[q], Pow(Pow(W, q), i))
  {
  }

  /** Storing the outputs of butterfly (k, i) and nothing else. */
  lemma FillStep(s: Pass, cc: seq<C>, ch: seq<C>, ch': seq<C>, k: nat, i: nat)
    requires s.Valid() && s.Proper() && |cc| == |ch| == |ch'| == s.Size() && k < s.l1 && i < s.ido
    requires Filled(s, cc, ch, k, i)
    requires forall q: nat :: Stored(s, cc, ch', q, k, i)
    requires forall p: nat :: p < |ch| && (forall q: nat :: q < s.ip ==> p != s.OutAt(q, k, i)) ==> ch'[p] == ch[p]
    ensures Filled(s, cc, ch', k, i + 1)
  {
    hide Output, Pass.OutAt;
    forall q: nat, k': nat, i': nat | k' < k || (k' == k && i' < i + 1) ensures Stored(s, cc, ch', q, k', i') {
      if (k' < k || i' < i) && q < s.ip && k' < s.l1 && i' < s.ido {
        assert Stored(s, cc, ch, q, k', i');
        OutIndex(s, q, k', i');
        forall q': nat | q' < s.ip ensures s.OutAt(q, k', i') != s.OutAt(q', k, i) {
          if s.OutAt(q, k', i') == s.OutAt(q', k, i) {
            OutDistinct(s, q, k', i', q', k, i);
          }
        }
      }
    }
  }

  lemma RowDone(s: Pass, cc: seq<C>, ch: seq<C>, k: nat)
    requires s.Valid() && s.Proper() && |cc| == |ch| == s.Size() && Filled(s, cc, ch, k, s.ido)
    ensures Filled(s, cc, ch, k + 1, 0)
  {
    hide Output;
    forall q: nat, k': nat, i': nat | k' < k + 1 ensures Stored(s, cc, ch, q, k', i') {
      if i' < s.ido {
        assert k' < k || i' < s.ido;
      }
    }
  }

  // ----- the pass itself

  /** The twiddle factor as the direction uses it. */
  function Effective(pos: bool, w: C): C {
    if pos then w else Conj(w)
  }

  /** Multiplication by a twiddle factor, as the two directions call `ComplexMult`. */
  function Twiddle(pos: bool, d: C, w: C): (r: C)
    ensures r == Mul(d, Effective(pos, w))
  {
    if pos then
      var (im, re) := ComplexMult(d.im, d.re, w.re, w.im);
      C(re, im)
    else
      var (re, im) := ComplexMult(d.re, d.im, w.re, w.im);
      C(re, im)
  }

  function TwiddleAt(ido: nat, iw: nat, q: nat, i: nat): nat
    requires q > 0
  {
    iw + (q - 1) * ido + i
  }

  lemma TwiddleBound(ip: nat, ido: nat, iw: nat, q: nat, i: nat)
    requires 0 < q < ip && i < ido
    ensures TwiddleAt(ido, iw, q, i) < iw + (ip - 1) * ido
  {
    BlockFits(ip - 1, ido, q - 1);
    BlockBound(ido, q - 1);
  }

  ghost predicate TwiddleIs(s: Pass, wa: seq<C>, iw: nat, q: nat, i: nat) {
    0 < q < s.ip && i < s.ido ==>
      && TwiddleAt(s.ido, iw, q, i) < |wa|
      && Effective(s.pos, wa[TwiddleAt(s.ido, iw, q, i)]) == Pow(Pow(Pow(s.v, s.l1), q), i)
  }

  /** The table holds this pass's factors from iw on: ip - 1 rows of ido. */
  ghost predicate TwiddlesFor(s: Pass, wa: seq<C>, iw: nat) {
    forall q: nat, i: nat :: TwiddleIs(s, wa, iw, q, i)
  }

  method Gather(s: Pass, cc: array<C>, k: nat, i: nat) returns (x: seq<C>)
    requires s.Valid() && s.Proper() && cc.Length == s.Size() && k < s.l1 && i < s.ido
    ensures x == Inputs(s, cc[..], k, i)
  {
    hide Pass.InAt;
    x := [];
    for r := 0 to s.ip
      invariant |x| == r && forall j :: 0 <= j < r ==> x[j] == Inputs(s, cc[..], k, i)[j]
    {
      InIndex(s, k, r, i);
      x := x + [cc[s.InAt(k, r, i)]];
    }
  }

  /** Output q of a butterfly: no twiddle on output 0, nor when blocks have one element. */
  method Twiddled(s: Pass, d: seq<C>, wa: array<C>, iw: nat, q: nat, k: nat, i: nat) returns (z: C)
    requires s.Valid() && |d| == s.ip && q < s.ip && i < s.ido && TwiddlesFor(s, wa[..], iw)
    ensures z == Mul(d[q], Pow(Pow(Pow(s.v, s.l1), q), i))
  {
    hide Mul;
    if q == 0 || s.ido == 1 {
      z := d[q];
      PowOne(i);
      MulOne(d[q]);
      assert q == 0 ==> Pow(Pow(s.v, s.l1), q) == ONE;
    } else {
      assert TwiddleIs(s, wa[..], iw, q, i);
      z := Twiddle(s.pos, d[q], wa[TwiddleAt(s.ido, iw, q, i)]);
    }
  }

  method StoreOutputs(s: Pass, ghost cc: seq<C>, d: seq<C>, ch: array<C>, wa: array<C>, iw: nat, k: nat, i: nat)
    requires s.Valid() && s.Proper() && |cc| == ch.Length == s.Size() && k < s.l1 && i < s.ido && wa != ch
    requires |d| == s.ip && d == Butterfly(s.ip, s.pos, s.c, Inputs(s, cc, k, i)) && TwiddlesFor(s, wa[..], iw)
    modifies ch
    ensures forall q: nat :: Stored(s, cc, ch[..], q, k, i)
    ensures forall p: nat :: p < ch.Length && (forall q: nat :: q < s.ip ==> p != s.OutAt(q, k, i)) ==> ch[p] == old(ch[p])
  {
    hide Butterfly, Inputs, Mul, Pow, Pass.OutAt, TwiddlesFor, Pass.Size;
    for q := 0 to s.ip
      invariant forall q': nat :: q' < q ==> Stored(s, cc, ch[..], q', k, i)
      invariant forall p: nat :: p < ch.Length && (forall q': nat :: q' < q ==> p != s.OutAt(q', k, i)) ==> ch[p] == old(ch[p])
    {
      var z := Twiddled(s, d, wa, iw, q, k, i);
      OutIndex(s, q, k, i);
      ghost var before := ch[..];
      ch[s.OutAt(q, k, i)] := z;
      forall q': nat | q' < q ensures Stored(s, cc, ch[..], q', k, i) {
        assert Stored(s, cc, before, q', k, i);
        OutIndex(s, q', k, i);
        if s.OutAt(q', k, i) == s.OutAt(q, k, i) {
          OutDistinct(s, q', k, i, q, k, i);
        }
      }
    }
  }

  /**
    `passf2`, `passf3`, `passf4` and `passf5` in either direction: every butterfly of
    every block, from cc to ch.
   */
  method RadixPass(s: Pass, cc: array<C>, ch: array<C>, wa: array<C>, iw: nat)
    requires s.Valid() && s.Proper() && cc.Length == ch.Length == s.Size() && cc != ch && wa != ch
    requires TwiddlesFor(s, wa[..], iw)
    modifies ch
    ensures IsStage(s, cc[..], ch[..])
  {
    hide Filled, IsStage, Butterfly, Inputs, Stored, Pass.OutAt, TwiddlesFor;
    EmptyStart(s, cc[..], ch[..]);
    for k := 0 to s.l1
      invariant Filled(s, cc[..], ch[..], k, 0)
    {
      for i := 0 to s.ido
        invariant Filled(s, cc[..], ch[..], k, i)
      {
        ghost var before := ch[..];
        var x := Gather(s, cc, k, i);
        var d := Butterfly(s.ip, s.pos, s.c, x);
        StoreOutputs(s, cc[..], d, ch, wa, iw, k, i);
        FillStep(s, cc[..], before, ch[..], k, i);
      }
      RowDone(s, cc[..], ch[..], k);
    }
    AllStored(s, cc[..], ch[..]);
  }

  lemma EmptyStart(s: Pass, cc: seq<C>, ch: seq<C>)
    requires s.Valid() && s.Proper() && |cc| == |ch| == s.Size()
    ensures Filled(s, cc, ch, 0, 0)
  {
  }

  // ----- all passes

  function Product(f: seq<nat>): nat {
    if f == [] then 1 else f[0] * Product(f[1..])
  }

  /** Every factor has a pass, and a factor 2 can only be the first. */
  predicate Runnable(f: seq<nat>) {
    forall j :: 0 <= j < |f| ==> 2 <= f[j] <= 5 && (j > 0 ==> f[j] != 2)
  }

  /** Every pass computes the transform of its inputs. */
  predicate AllHandled(f: seq<nat>, pos: bool) {
    forall j :: 0 <= j < |f| ==> Handled(f[j], pos)
  }

  lemma {:induction false} ProductPositive(f: seq<nat>)
    requires forall j :: 0 <= j < |f| ==> f[j] >= 2
    ensures Product(f) > 0
  {
    if f != [] {
      ProductPositive(f[1..]);
      Arith.MulGe(f[0], Product(f[1..]));
    }
  }

  /** v is an n-th root of one, and its powers are the roots the butterflies have built in. */
  ghost predicate IsRoot(v: C, n: nat, pos: bool, c: Consts) {
    && Pow(v, n) == ONE
    && (n % 2 == 0 ==> Pow(v, n / 2) == Omega(2, pos, c))
    && (n % 3 == 0 ==> Pow(v, n / 3) == Omega(3, pos, c))
    && (n % 4 == 0 ==> Pow(v, n / 4) == Omega(4, pos, c))
    && (n % 5 == 0 ==> Pow(v, n / 5) == Omega(5, pos, c))
  }

  lemma RootAt(v: C, n: nat, pos: bool, c: Consts, ip: nat, m: nat)
    requires IsRoot(v, n, pos, c) && 2 <= ip <= 5 && n == ip * m
    ensures Pow(v, m) == Omega(ip, pos, c)
  {
    hide Pow, Omega;
    if ip == 2 {
      MultipleOf2(n, m);
    } else if ip == 3 {
      MultipleOf3(n, m);
    } else if ip == 4 {
      MultipleOf4(n, m);
    } else {
      MultipleOf5(n, m);
    }
  }

  lemma MultipleOf2(n: nat, m: nat)
    requires n == 2 * m
    ensures n % 2 == 0 && n / 2 == m
  {
  }

  lemma MultipleOf3(n: nat, m: nat)
    requires n == 3 * m
    ensures n % 3 == 0 && n / 3 == m
  {
  }

  lemma MultipleOf4(n: nat, m: nat)
    requires n == 4 * m
    ensures n % 4 == 0 && n / 4 == m
  {
  }

  lemma MultipleOf5(n: nat, m: nat)
    requires n == 5 * m
    ensures n % 5 == 0 && n / 5 == m
  {
  }

  lemma StageRoots(s: Pass, n: nat)
    requires s.Valid() && IsRoot(s.v, n, s.pos, s.c) && n == s.l1 * (s.ip * s.ido)
    ensures Pow(Pow(s.v, s.l1), s.ido) == Omega(s.ip, s.pos, s.c)
    ensures Pow(Pow(s.v, s.l1), s.ip * s.ido) == ONE
  {
    hide Pow, Omega, IsRoot;
    PowMul(s.v, s.l1, s.ido);
    PowMul(s.v, s.l1, s.ip * s.ido);
    assert n == s.ip * (s.l1 * s.ido) by {
      Arith.MulAssoc(s.l1, s.ip, s.ido);
      Arith.MulComm(s.l1, s.ip);
      Arith.MulAssoc(s.ip, s.l1, s.ido);
    }
    RootAt(s.v, n, s.pos, s.c, s.ip, s.l1 * s.ido);
    WholeTurn(s.v, n, s.pos, s.c);
  }

  lemma WholeTurn(v: C, n: nat, pos: bool, c: Consts)
    requires IsRoot(v, n, pos, c)
    ensures Pow(v, n) == ONE
  {
  }

  /** The twiddle table for the factors f at level l1; the rows of a stage start at n minus what is still to be split. */
  ghost predicate TwiddleTable(wa: seq<C>, n: nat, f: seq<nat>, l1: nat, pos: bool, c: Consts, v: C) {
    f == [] ||
      (&& Product(f) <= n
       && TwiddlesFor(Pass(f[0], l1, Product(f[1..]), pos, c, v), wa, n - Product(f))
       && TwiddleTable(wa, n, f[1..], l1 * f[0], pos, c, v))
  }

  /** The passes for the factors f lead from a to b. */
  ghost predicate Runs(a: seq<C>, b: seq<C>, f: seq<nat>, l1: nat, pos: bool, c: Consts, v: C)
    decreases |f|
  {
    if f == [] then a == b
    else exists mid: seq<C> :: StageTo(a, mid, f, l1, pos, c, v) && Runs(mid, b, f[1..], l1 * f[0], pos, c, v)
  }

  ghost predicate StageTo(a: seq<C>, b: seq<C>, f: seq<nat>, l1: nat, pos: bool, c: Consts, v: C)
    requires f != []
  {
    var s := Pass(f[0], l1, Product(f[1..]), pos, c, v);
    s.Valid() && IsStage(s, a, b)
  }

  /** If every pass computes the transform of its inputs, all of them together do. */
  lemma {:induction false} RunsTransform(a: seq<C>, b: seq<C>, x: seq<C>, f: seq<nat>, l1: nat, pos: bool, c: Consts, v: C)
    requires Runs(a, b, f, l1, pos, c, v) && AllHandled(f, pos)
    requires Transforms(a, x, v, l1, Product(f)) && IsRoot(v, |x|, pos, c) && Exact(c)
    ensures IsTransform(b, x, v)
    decreases |f|
  {
    hide Exact, IsRoot, Transforms, IsStage, Dft, Pow, Omega;
    TransformsSize(a, x, v, l1, Product(f));
    if f == [] {
      TransformsEnd(a, x, v, l1);
    } else {
      var mid: seq<C> :| StageTo(a, mid, f, l1, pos, c, v) && Runs(mid, b, f[1..], l1 * f[0], pos, c, v);
      var s := Pass(f[0], l1, Product(f[1..]), pos, c, v);
      StageRoots(s, |x|);
      StageStep(s, a, mid, x);
      RunsTransform(mid, b, x, f[1..], l1 * f[0], pos, c, v);
    }
  }

  lemma TransformsSize(a: seq<C>, x: seq<C>, v: C, l1: nat, len: nat)
    ensures Transforms(a, x, v, l1, len) ==> |a| == |x| == l1 * len
  {
  }

  /** State of the driver before the pass for the factors f still to come: whatever they lead to, all factors g do. */
  ghost predicate Midway(a: seq<C>, x: seq<C>, wa: seq<C>, g: seq<nat>, f: seq<nat>, l1: nat, pos: bool, c: Consts, v: C) {
    && l1 > 0 && |a| == |x| == l1 * Product(f)
    && (forall j :: 0 <= j < |f| ==> 2 <= f[j] <= 5 && (j > 0 || l1 > 1 ==> f[j] != 2))
    && TwiddleTable(wa, |x|, f, l1, pos, c, v)
    && forall b :: Runs(a, b, f, l1, pos, c, v) ==> Runs(x, b, g, 1, pos, c, v)
  }

  lemma MidwayPass(a: seq<C>, x: seq<C>, wa: seq<C>, g: seq<nat>, f: seq<nat>, l1: nat, pos: bool, c: Consts, v: C) returns (s: Pass)
    requires Midway(a, x, wa, g, f, l1, pos, c, v) && f != []
    ensures s == Pass(f[0], l1, Product(f[1..]), pos, c, v) && s.Valid() && s.Proper() && s.Size() == |x| == |a|
    ensures Product(f) <= |x| && TwiddlesFor(s, wa, |x| - Product(f))
  {
    hide TwiddlesFor, Runs;
    s := Pass(f[0], l1, Product(f[1..]), pos, c, v);
    ProductPositive(f[1..]);
  }

  lemma MidwayNext(a: seq<C>, b: seq<C>, x: seq<C>, wa: seq<C>, g: seq<nat>, f: seq<nat>, l1: nat, s: Pass)
    requires Midway(a, x, wa, g, f, l1, s.pos, s.c, s.v) && f != []
    requires s == Pass(f[0], l1, Product(f[1..]), s.pos, s.c, s.v) && s.Valid() && IsStage(s, a, b)
    ensures Midway(b, x, wa, g, f[1..], l1 * f[0], s.pos, s.c, s.v)
  {
    hide TwiddlesFor, IsStage;
    Arith.MulAssoc(l1, f[0], Product(f[1..]));
    Arith.MulGe(l1, f[0]);
    StageSize(s, a, b);
    assert StageTo(a, b, f, l1, s.pos, s.c, s.v);
  }

  lemma StageSize(s: Pass, a: seq<C>, b: seq<C>)
    requires s.Valid() && IsStage(s, a, b)
    ensures |a| == |b| == s.Size()
  {
  }

  lemma MidwayStart(x: seq<C>, wa: seq<C>, f: seq<nat>, pos: bool, c: Consts, v: C)
    requires Product(f) == |x| && Runnable(f) && TwiddleTable(wa, |x|, f, 1, pos, c, v)
    ensures Midway(x, x, wa, f, f, 1, pos, c, v)
  {
    hide TwiddleTable, Runs;
  }

  lemma MidwayEnd(a: seq<C>, x: seq<C>, wa: seq<C>, g: seq<nat>, l1: nat, pos: bool, c: Consts, v: C)
    requires Midway(a, x, wa, g, [], l1, pos, c, v)
    ensures Runs(x, a, g, 1, pos, c, v)
  {
    assert Runs(a, a, [], l1, pos, c, v);
  }

  /** `ido = n / l2` is what is left to split after this factor, and `iw` moves on by as many rows as the pass used. */
  lemma BlockLengths(n: nat, l1: nat, f: seq<nat>)
    requires f != [] && l1 > 0 && n == l1 * Product(f) && forall j :: 0 <= j < |f| ==> f[j] >= 2
    ensures l1 * f[0] > 0 && n / (l1 * f[0]) == Product(f[1..])
    ensures Product(f) - (f[0] - 1) * Product(f[1..]) == Product(f[1..])
  {
    var d := Product(f[1..]);
    Arith.MulAssoc(l1, f[0], d);
    Arith.MulGe(l1, f[0]);
    Arith.DivUnique(n, l1 * f[0], d, 0);
    PieceSize(f[0], d);
  }

  /**
    `cfftf1pos` and `cfftf1neg`: the passes for all factors in turn. If each of them
    computes the transform of its inputs, the array ends up holding the unnormalised
    transform of what it held, with root v.
   */
  method CfftF1(n: nat, c: array<C>, ch: array<C>, ifac: array<nat>, wa: array<C>, pos: bool, consts: Consts, v: C)
    requires c.Length == ch.Length == n && c != ch && wa != c && wa != ch
    requires ifac.Length == 15 && ifac[1] <= 13
    requires var f := ifac[2..2 + ifac[1]];
             Product(f) == n && Runnable(f) && TwiddleTable(wa[..], n, f, 1, pos, consts, v)
    requires Exact(consts) && IsRoot(v, n, pos, consts)
    modifies c, ch
    ensures var f := ifac[2..2 + ifac[1]];
            && Runs(old(c[..]), c[..], f, 1, pos, consts, v)
            && (AllHandled(f, pos) ==> IsTransform(c[..], old(c[..]), v))
  {
    hide *;
    ghost var x, f := c[..], ifac[2..2 + ifac[1]];
    var nf: nat, na: nat, l1: nat, iw: nat := ifac[1], 0, 1, 0;
    MidwayStart(x, wa[..], f, pos, consts, v);
    for k1 := 2 to nf + 2
      invariant na == 0 || na == 1
      invariant Midway(if na == 0 then c[..] else ch[..], x, wa[..], f, f[k1 - 2..], l1, pos, consts, v)
      invariant iw == n - Product(f[k1 - 2..])
    {
      var ip := ifac[k1];
      ghost var g := f[k1 - 2..];
      assert g[0] == ip && g[1..] == f[k1 - 1..];
      MidwayFactors(if na == 0 then c[..] else ch[..], x, wa[..], f, g, l1, pos, consts, v);
      BlockLengths(n, l1, g);
      var l2 := ip * l1;
      Arith.MulComm(ip, l1);
      var ido := n / l2;
      var s := Pass(ip, l1, ido, pos, consts, v);
      ghost var a := if na == 0 then c[..] else ch[..];
      ghost var s' := MidwayPass(a, x, wa[..], f, g, l1, pos, consts, v);
      if na == 0 {
        RadixPass(s, c, ch, wa, iw);
        MidwayNext(a, ch[..], x, wa[..], f, g, l1, s);
      } else {
        RadixPass(s, ch, c, wa, iw);
        MidwayNext(a, c[..], x, wa[..], f, g, l1, s);
      }
      na := 1 - na;
      l1 := l2;
      iw := iw + (ip - 1) * ido;
    }
    assert f[nf..] == [];
    MidwayEnd(if na == 0 then c[..] else ch[..], x, wa[..], f, l1, pos, consts, v);
    DriverResult(x, if na == 0 then c[..] else ch[..], f, pos, consts, v);
    if na == 0 {
      return;
    }
    ghost var out := ch[..];
    for i := 0 to n
      invariant c[..i] == out[..i] && ch[..] == out
    {
      c[i] := ch[i];
    }
    assert c[..] == out;
  }

  lemma MidwayFactors(a: seq<C>, x: seq<C>, wa: seq<C>, g: seq<nat>, f: seq<nat>, l1: nat, pos: bool, c: Consts, v: C)
    requires Midway(a, x, wa, g, f, l1, pos, c, v)
    ensures l1 > 0 && |a| == |x| == l1 * Product(f) && forall j :: 0 <= j < |f| ==> 2 <= f[j] <= 5
  {
  }

  lemma DriverResult(x: seq<C>, b: seq<C>, f: seq<nat>, pos: bool, c: Consts, v: C)
    requires Runs(x, b, f, 1, pos, c, v) && Product(f) == |x| && Exact(c) && IsRoot(v, |x|, pos, c)
    ensures AllHandled(f, pos) ==> IsTransform(b, x, v)
  {
    hide *;
    TransformsStart(x, v);
    if AllHandled(f, pos) {
      RunsTransform(x, b, x, f, 1, pos, c, v);
    }
  }
}
