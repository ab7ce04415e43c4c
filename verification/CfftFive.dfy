/**
  `cfftf` on a size with a factor 5. The factors 5 come last, and the forward branch of
  the last `passf5` gives an impulse at index 2 away, which all passes before it hand on.
 */
module CfftFive {
  import Arith
  import opened Complex
  import opened FftStage
  import opened Cfft
  import opened CfftInit

  /** Zeros, with a one at index 2. */
  function Impulse(n: nat): (x: seq<C>)
    ensures |x| == n
  {
    seq(n, i => if i == 2 then ONE else ZERO)
  }

  lemma PolyImpulse(n: nat, z: C)
    requires n >= 3
    ensures Poly(Impulse(n), z) == Mul(z, z)
  {
    hide Mul, Add;
    var x := Impulse(n);
    var y := x[1..];
    var u := y[1..];
    assert u[1..] == seq(n - 3, i => ZERO);
    PolyOfZeros(n - 3, z);
    MulZero(z);
    MulOne(z);
    AddZero(ONE);
    AddZero(z);
    AddZero(Mul(z, z));
    assert Poly(u, z) == ONE;
    assert Poly(y, z) == z;
  }

  lemma {:induction false} LastFive(f: seq<nat>)
    requires EndsInFive(f) && forall j :: 0 <= j < |f| ==> f[j] >= 2
    ensures Product(f) >= 5
  {
    if |f| == 1 {
      assert f[1..] == [];
    } else {
      LastFive(f[1..]);
      Arith.MulDist(Product(f[1..]), 1, f[0] - 1);
      Arith.MulNonneg(Product(f[1..]), f[0] - 1);
      Arith.MulComm(Product(f[1..]), f[0]);
    }
  }

  /** A butterfly whose inputs past the first are zero hands the first one on. */
  lemma LoneInput(ip: nat, pos: bool, c: Consts, x: seq<C>)
    requires 2 <= ip <= 5 && |x| == ip && forall r :: 0 < r < ip ==> x[r] == ZERO
    ensures Butterfly(ip, pos, c, x)[0] == x[0]
  {
    hide *;
    if ip == 2 {
      LoneInput2(x);
    } else if ip == 3 {
      LoneInput3(pos, c, x);
    } else if ip == 4 {
      LoneInput4(pos, x);
    } else {
      LoneInput5(pos, c, x);
    }
    ButterflyCases(ip, pos, c, x);
  }

  lemma ButterflyCases(ip: nat, pos: bool, c: Consts, x: seq<C>)
    requires 2 <= ip <= 5 && |x| == ip
    ensures ip == 2 ==> Butterfly(ip, pos, c, x) == Radix2(x)
    ensures ip == 3 ==> Butterfly(ip, pos, c, x) == Radix3(x, pos, c)
    ensures ip == 4 ==> Butterfly(ip, pos, c, x) == Radix4(x, pos)
    ensures ip == 5 ==> Butterfly(ip, pos, c, x) == Radix5(x, pos, c)
  {
  }

  lemma LoneInput2(x: seq<C>)
    requires |x| == 2 && x[1] == ZERO
    ensures Radix2(x)[0] == x[0]
  {
  }

  lemma LoneInput3(pos: bool, c: Consts, x: seq<C>)
    requires |x| == 3 && x[1] == x[2] == ZERO
    ensures Radix3(x, pos, c)[0] == x[0]
  {
    hide Scale, Sub, PlusI, MinusI;
  }

  lemma LoneInput4(pos: bool, x: seq<C>)
    requires |x| == 4 && x[1] == x[2] == x[3] == ZERO
    ensures Radix4(x, pos)[0] == x[0]
  {
  }

  lemma LoneInput5(pos: bool, c: Consts, x: seq<C>)
    requires |x| == 5 && x[1] == x[2] == x[3] == x[4] == ZERO
    ensures Radix5(x, pos, c)[0] == x[0]
  {
    hide Radix5, Add;
    FirstOutput(pos, c, x);
    AddZero(ZERO);
    AddZero(x[0]);
  }

  lemma FirstOutput(pos: bool, c: Consts, x: seq<C>)
    requires |x| == 5
    ensures Radix5(x, pos, c)[0] == Add(Add(x[0], Add(x[1], x[4])), Add(x[2], x[3]))
  {
    hide ComplexMult, Scale, Sub, PlusI, MinusI, Add;
  }

  /** Butterfly i of an impulse has no input but its first. */
  lemma ImpulseColumn(ido: nat, ip: nat, i: nat, r: nat)
    requires ip >= 2 && ido >= 3 && i < ido && r < ip
    ensures Column(Impulse(ip * ido), ido, ip, i)[r] == if r == 0 then Impulse(ido)[i] else ZERO
  {
    hide Column;
    ColumnAt(Impulse(ip * ido), ido, ip, i, r);
    if r > 0 {
      PieceSize(r, ido);
    }
  }

  lemma ImpulseEntry(ido: nat, ip: nat, pos: bool, c: Consts, W: C, i: nat)
    requires 2 <= ip <= 5 && ido >= 3 && i < ido
    ensures NewBlock(Impulse(ip * ido), ido, ip, 0, pos, c, W)[i] == Impulse(ido)[i]
  {
    hide *;
    var b := Impulse(ip * ido);
    var x := Column(b, ido, ip, i);
    forall r | 0 <= r < ip ensures x[r] == if r == 0 then Impulse(ido)[i] else ZERO {
      ImpulseColumn(ido, ip, i, r);
    }
    LoneInput(ip, pos, c, x);
    NewBlockAt(b, ido, ip, 0, pos, c, W, i);
    FirstTwiddle(W, i, x[0]);
  }

  lemma FirstTwiddle(W: C, i: nat, a: C)
    ensures Mul(a, Pow(Pow(W, 0), i)) == a
  {
    hide Mul;
    PowOne(i);
    MulOne(a);
  }

  /** The first new block of an impulse is an impulse. */
  lemma ImpulseBlock(ido: nat, ip: nat, pos: bool, c: Consts, W: C)
    requires 2 <= ip <= 5 && ido >= 3
    ensures NewBlock(Impulse(ip * ido), ido, ip, 0, pos, c, W) == Impulse(ido)
  {
    hide *;
    var e, x := NewBlock(Impulse(ip * ido), ido, ip, 0, pos, c, W), Impulse(ido);
    forall i | 0 <= i < ido ensures e[i] == x[i] {
      ImpulseEntry(ido, ip, pos, c, W, i);
    }
  }

  lemma FirstBlock(a: seq<C>, len: nat)
    requires len <= |a|
    ensures 1 * len <= |a| && Block(a, len, 0) == a[..len]
  {
  }

  /** All passes before the last one hand the impulse on. */
  lemma ImpulseStage(s: Pass, a: seq<C>, b: seq<C>)
    requires s.Valid() && s.ido >= 3 && IsStage(s, a, b)
    requires s.ip * s.ido <= |a| && a[..s.ip * s.ido] == Impulse(s.ip * s.ido)
    ensures s.ido <= |b| && b[..s.ido] == Impulse(s.ido)
  {
    hide Impulse, NewBlock, Block;
    assert StageBlock(s, a, b, 0, 0);
    FirstBlock(a, s.ip * s.ido);
    assert s.l1 * 0 == 0 && (0 + s.l1 * 0 + 1) * s.ido == s.ido;
    FirstBlock(b, s.ido);
    ImpulseBlock(s.ido, s.ip, s.pos, s.c, Pow(s.v, s.l1));
  }

  /** The last pass answers with the butterfly of the impulse. */
  lemma LastStage(s: Pass, a: seq<C>, b: seq<C>, q: nat)
    requires s.Valid() && s.ip == 5 && s.ido == 1 && !s.pos && IsStage(s, a, b) && q < 5
    requires 5 <= |a| && a[..5] == Impulse(5)
    ensures q * s.l1 < |b| && b[q * s.l1] == Radix5(Impulse(5), false, s.c)[q]
  {
    hide Impulse, NewBlock, Block, Radix5, Mul;
    assert StageBlock(s, a, b, q, 0);
    Arith.MulComm(q, s.l1);
    FirstBlock(a, 5);
    BlockAt(b, 1, q * s.l1, 0);
    var x := Impulse(5);
    NewBlockAt(x, 1, 5, q, false, s.c, Pow(s.v, s.l1), 0);
    forall r | 0 <= r < 5 ensures Column(x, 1, 5, 0)[r] == x[r] {
      ColumnAt(x, 1, 5, 0, r);
    }
    assert Column(x, 1, 5, 0) == x;
    MulOne(Radix5(x, false, s.c)[q]);
  }

  lemma {:induction false} RunsImpulse(a: seq<C>, b: seq<C>, f: seq<nat>, l1: nat, l: nat, c: Consts, v: C, q: nat)
    requires Runs(a, b, f, l1, false, c, v) && EndsInFive(f) && (forall j :: 0 <= j < |f| ==> f[j] >= 2)
    requires l1 * Product(f) == 5 * l && q < 5
    requires Product(f) <= |a| && a[..Product(f)] == Impulse(Product(f))
    ensures q * l < |b| && b[q * l] == Radix5(Impulse(5), false, c)[q]
    decreases |f|
  {
    hide Impulse, Radix5, IsStage;
    var mid: seq<C> :| StageTo(a, mid, f, l1, false, c, v) && Runs(mid, b, f[1..], l1 * f[0], false, c, v);
    var s := Pass(f[0], l1, Product(f[1..]), false, c, v);
    if |f| == 1 {
      assert f[1..] == [];
      LastStage(s, a, mid, q);
    } else {
      LastFive(f[1..]);
      ImpulseStage(s, a, mid);
      Arith.MulAssoc(l1, f[0], Product(f[1..]));
      RunsImpulse(mid, b, f[1..], l1 * f[0], l, c, v, q);
    }
  }

  /** One of the outputs at the multiples of n / 5 is wrong. */
  lemma ForwardFails(b: seq<C>, n: nat, f: seq<nat>, c: Consts, v: C)
    requires Runs(Impulse(n), b, f, 1, false, c, v) && EndsInFive(f) && (forall j :: 0 <= j < |f| ==> f[j] >= 2)
    requires Product(f) == n && n % 5 == 0 && Exact(c) && IsRoot(v, n, false, c)
    ensures !IsTransform(b, Impulse(n), v)
  {
    hide *;
    var x, l := Impulse(5), n / 5;
    LastFive(f);
    ImpulseTold();
    Radix5ForwardExact(x, c);
    var q: nat :| q < 5 && Radix5(x, false, c)[q] != Poly(x, Pow(Omega(5, false, c), q));
    assert Impulse(n)[..n] == Impulse(n);
    RunsImpulse(Impulse(n), b, f, 1, l, c, v, q);
    RootAt(v, n, false, c, 5, l);
    PowMul(v, l, q);
    Arith.MulComm(l, q);
    WrongOutput(b, n, v, q * l);
  }

  lemma ImpulseTold()
    ensures Impulse(5)[2] != Impulse(5)[3]
  {
  }

  lemma WrongOutput(b: seq<C>, n: nat, v: C, m: nat)
    requires n >= 5 && m < |b| && b[m] != Poly(Impulse(5), Pow(v, m)) && m < n
    ensures !IsTransform(b, Impulse(n), v)
  {
    hide Mul, Impulse, Pow, Poly;
    PolyImpulse(5, Pow(v, m));
    PolyImpulse(n, Pow(v, m));
  }
}
