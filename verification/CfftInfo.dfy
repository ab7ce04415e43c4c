/**
  `cffti`, `cfftb` and `cfftf` together: what a transform set up for n computes,
  and that the backward transform undoes the forward one up to the factor n.
 */
module CfftInfo {
  import Arith
  import opened Complex
  import opened FftStage
  import opened Cfft
  import opened CfftInit
  import opened CfftTwiddle
  import opened CfftForward
  import opened CfftFive

  /** Exact sine and cosine of one n-th of a turn: its powers are the factors the butterflies rely on. */
  ghost predicate TurnOf(w: C, n: nat, c: Consts) {
    IsRoot(w, n, true, c) && Mul(w, Conj(w)) == ONE
  }

  lemma ConjOmega(ip: nat, c: Consts)
    ensures Conj(Omega(ip, true, c)) == Omega(ip, false, c)
  {
  }

  lemma ConjPart(w: C, k: nat, ip: nat, c: Consts)
    requires Pow(w, k) == Omega(ip, true, c)
    ensures Pow(Conj(w), k) == Omega(ip, false, c)
  {
    hide Pow, Omega, Conj;
    ConjPow(w, k);
    ConjOmega(ip, c);
  }

  lemma ConjOne()
    ensures Conj(ONE) == ONE
  {
  }

  lemma RootConj(w: C, n: nat, c: Consts)
    requires IsRoot(w, n, true, c)
    ensures IsRoot(Conj(w), n, false, c)
  {
    hide Pow, Omega;
    ConjOne();
    hide Conj;
    ConjPow(w, n);
    if n % 2 == 0 {
      ConjPart(w, n / 2, 2, c);
    }
    if n % 3 == 0 {
      ConjPart(w, n / 3, 3, c);
    }
    if n % 4 == 0 {
      ConjPart(w, n / 4, 4, c);
    }
    if n % 5 == 0 {
      ConjPart(w, n / 5, 5, c);
    }
  }

  lemma TwiddlesConj(s: Pass, wa: seq<C>, iw: nat)
    requires s.pos && TwiddlesFor(s, wa, iw)
    ensures TwiddlesFor(Pass(s.ip, s.l1, s.ido, false, s.c, Conj(s.v)), wa, iw)
  {
    hide Pow, Conj;
    var s' := Pass(s.ip, s.l1, s.ido, false, s.c, Conj(s.v));
    forall q: nat, i: nat ensures TwiddleIs(s', wa, iw, q, i) {
      assert TwiddleIs(s, wa, iw, q, i);
      ConjPow(s.v, s.l1);
      ConjPow(Pow(s.v, s.l1), q);
      ConjPow(Pow(Pow(s.v, s.l1), q), i);
    }
  }

  lemma {:induction false} TableConj(wa: seq<C>, n: nat, f: seq<nat>, l1: nat, c: Consts, w: C)
    requires TwiddleTable(wa, n, f, l1, true, c, w)
    ensures TwiddleTable(wa, n, f, l1, false, c, Conj(w))
    decreases |f|
  {
    hide TwiddlesFor, Product, Conj;
    if f != [] {
      TwiddlesConj(Pass(f[0], l1, Product(f[1..]), true, c, w), wa, n - Product(f));
      TableConj(wa, n, f[1..], l1 * f[0], c, w);
    }
  }

  /** `cfft_info` */
  class Info {
    const n: nat
    const ifac: array<nat>
    const work: array<C>
    const tab: array<C>
    const consts: Consts
    const w: C

    ghost predicate Valid()
      reads ifac, tab
    {
      && ifac.Length == 15 && work.Length == tab.Length == n && work != tab
      && ifac[1] <= 10 && Exact(consts) && TurnOf(w, n, consts)
      && var f := ifac[2..2 + ifac[1]];
         && Product(f) == n && TwoFirst(f) && (Smooth(n) <==> forall t :: 0 <= t < |f| ==> f[t] <= 5)
         && (Smooth(n) ==> TwiddleTable(tab[..], n, f, 1, true, consts, w))
         && (Smooth(n) && n % 5 == 0 ==> EndsInFive(f))
    }

    /** `cffti`; w stands for the sine and cosine of one n-th of a turn. */
    constructor (n: nat, consts: Consts, w: C)
      requires 2 <= n < 0x1_0000 && Exact(consts) && TurnOf(w, n, consts)
      ensures Valid() && this.n == n && this.consts == consts && this.w == w
      ensures fresh(ifac) && fresh(work) && fresh(tab)
    {
      this.n, this.consts, this.w := n, consts, w;
      ifac := new nat[15];
      work := new C[n](_ => ZERO);
      tab := new C[n](_ => ZERO);
      new;
      hide *;
      Factorise(n, ifac);
      FactorsPlain(ifac[2..2 + ifac[1]]);
      MakeTwiddles(n, ifac, tab, consts, w);
    }

    /** `cfftb`, for a size that 2, 3 and 5 build. */
    method Backward(c: array<C>)
      requires Valid() && c.Length == n && c != work && c != tab && Smooth(n)
      modifies c, work
      ensures Valid()
      ensures IsTransform(c[..], old(c[..]), w)
    {
      hide Exact, IsRoot, TwiddleTable, Product, Runnable, AllHandled, TwoFirst, EndsInFive, Smooth, Runs, IsTransform;
      FactorsRunnable(ifac[2..2 + ifac[1]], n);
      CfftF1(n, c, work, ifac, tab, true, consts, w);
    }

    /**
      `cfftf`, for a size that 2, 3 and 5 build and for every input: each output is that of
      the transform, with the samples turned as the factors 5 turn them. Without a factor 5
      that is the transform; with one, an impulse at index 2 does not come out as its transform.
     */
    method Forward(c: array<C>)
      requires Valid() && c.Length == n && c != work && c != tab && Smooth(n)
      modifies c, work
      ensures Valid()
      ensures var f := ifac[2..2 + ifac[1]];
              AtLeastTwo(f) && IsTurned(c[..], old(c[..]), f, consts, Conj(w))
      ensures n % 5 != 0 ==> IsTransform(c[..], old(c[..]), Conj(w))
      ensures n % 5 == 0 && old(c[..]) == Impulse(n) ==> !IsTransform(c[..], old(c[..]), Conj(w))
    {
      hide Exact, IsRoot, TwiddleTable, Product, Runnable, AllHandled, TwoFirst, EndsInFive, Smooth, Runs, IsTransform, Conj,
           Impulse, IsTurned, AtLeastTwo;
      ghost var x, f := c[..], ifac[2..2 + ifac[1]];
      FactorsRunnable(f, n);
      RootConj(w, n, consts);
      TableConj(tab[..], n, f, 1, consts, w);
      CfftF1(n, c, work, ifac, tab, false, consts, Conj(w));
      FactorsPlain(f);
      ForwardIs(x, c[..], f, consts, Conj(w));
      if n % 5 == 0 && x == Impulse(n) {
        ForwardFails(c[..], n, f, consts, Conj(w));
      }
    }
  }

  lemma FactorsPlain(f: seq<nat>)
    requires TwoFirst(f)
    ensures AtLeastTwo(f)
  {
  }

  lemma FactorsRunnable(f: seq<nat>, n: nat)
    requires TwoFirst(f) && Product(f) == n && (forall t :: 0 <= t < |f| ==> f[t] <= 5)
    ensures Runnable(f) && AllHandled(f, true) && (n % 5 != 0 ==> AllHandled(f, false))
  {
    forall t | 0 <= t < |f| && f[t] == 5 ensures n % 5 == 0 {
      FactorDivides(f, t);
    }
  }

  lemma {:induction false} FactorDivides(f: seq<nat>, t: nat)
    requires t < |f| && f[t] == 5
    ensures Product(f) % 5 == 0
  {
    if t > 0 {
      FactorDivides(f[1..], t - 1);
      var h := Product(f[1..]) / 5;
      assert Product(f[1..]) == 5 * h;
      Arith.MulAssoc(f[0], 5, h);
      Arith.MulComm(f[0], 5);
      Arith.MulAssoc(5, f[0], h);
    }
  }

  // ----- the backward transform undoes the forward one

  /** No smaller power of w is one. */
  ghost predicate Primitive(w: C, n: nat) {
    forall d: nat :: 0 < d < n ==> Pow(w, d) != ONE
  }

  /** 1 + z + ... + z^(n-1) */
  function Geometric(n: nat, z: C): C {
    Poly(seq(n, i => ONE), z)
  }

  function Real(n: nat): C {
    C(n as real, 0.0)
  }

  lemma {:induction false} GeometricOne(n: nat)
    ensures Geometric(n, ONE) == Real(n)
  {
    if n > 0 {
      GeometricOne(n - 1);
      assert seq(n, i => ONE)[1..] == seq(n - 1, i => ONE);
      MulOne(Geometric(n - 1, ONE));
    }
  }

  /** (z - 1) (1 + z + ... + z^(n-1)) = z^n - 1 */
  lemma {:induction false} Telescope(n: nat, z: C)
    ensures Sub(Mul(z, Geometric(n, z)), Geometric(n, z)) == Sub(Pow(z, n), ONE)
  {
    hide Mul;
    if n == 0 {
      MulZero(z);
    } else {
      var g := Geometric(n - 1, z);
      Telescope(n - 1, z);
      assert seq(n, i => ONE)[1..] == seq(n - 1, i => ONE);
      assert Geometric(n, z) == Add(ONE, Mul(z, g));
      MulAdd(z, ONE, Mul(z, g));
      MulOne(z);
      MulSubtract(z, Mul(z, g), g);
      MulSubtract(z, Pow(z, n - 1), ONE);
    }
  }

  lemma MulSubtract(a: C, b: C, c: C)
    ensures Mul(a, Sub(b, c)) == Sub(Mul(a, b), Mul(a, c))
  {
  }

  lemma NoZeroDivisors(a: C, b: C)
    requires Mul(a, b) == ZERO && a != ZERO
    ensures b == ZERO
  {
    assert a.re != 0.0 || a.im != 0.0;
    hide Mul, Conj, Scale;
    var m := ConjNorm(a, b);
    assert Mul(Conj(a), ZERO) == ZERO by {
      MulZero(Conj(a));
    }
    ScaleZero(m, b);
  }

  lemma SquarePositive(x: real)
    ensures Square(x) >= 0.0 && (x != 0.0 ==> Square(x) > 0.0)
  {
    hide Square;
    if x > 0.0 {
      PositiveSquare(x);
    } else if x < 0.0 {
      PositiveSquare(-x);
      SquareOfMinus(x);
    } else {
      SquareOfZero();
    }
  }

  lemma PositiveTimes(x: real, y: real)
    requires x > 0.0 && y > 0.0
    ensures Times(x, y) > 0.0
  {
  }

  lemma PositiveSquare(x: real)
    requires x > 0.0
    ensures Square(x) > 0.0
  {
    hide Times;
    PositiveTimes(x, x);
  }

  lemma SquareOfMinus(x: real)
    ensures Square(-x) == Square(x)
  {
  }

  lemma SquareOfZero()
    ensures Square(0.0) == 0.0
  {
  }

  /** Multiplying by a and then by its conjugate scales by a positive number. */
  lemma ConjNorm(a: C, b: C) returns (m: real)
    requires a.re != 0.0 || a.im != 0.0
    ensures m > 0.0 && Mul(Conj(a), Mul(a, b)) == Scale(m, b)
  {
    hide *;
    m := Norm(a);
    NormTimes(a, b);
    NormPositive(a);
  }

  function Times(x: real, y: real): real {
    x * y
  }

  function Square(x: real): real {
    Times(x, x)
  }

  /** The square of the length of a. */
  function Norm(a: C): real {
    Square(a.re) + Square(a.im)
  }

  lemma NormPositive(a: C)
    requires a.re != 0.0 || a.im != 0.0
    ensures Norm(a) > 0.0
  {
    hide Square;
    SquarePositive(a.re);
    SquarePositive(a.im);
  }

  lemma NormTimes(a: C, b: C)
    ensures Mul(Conj(a), Mul(a, b)) == Scale(Norm(a), b)
  {
  }

  lemma ScaleZero(m: real, b: C)
    requires m > 0.0 && Scale(m, b) == ZERO
    ensures b == ZERO
  {
  }

  lemma GeometricZero(n: nat, z: C)
    requires Pow(z, n) == ONE && z != ONE
    ensures Geometric(n, z) == ZERO
  {
    var g := Geometric(n, z);
    Telescope(n, z);
    MulComm(z, g);
    MulSubtract(g, z, ONE);
    MulOne(g);
    MulComm(Sub(z, ONE), g);
    NoZeroDivisors(Sub(z, ONE), g);
  }

  // a transform of transforms, output by output

  /** The outputs of the transform with root v. */
  function Transform(x: seq<C>, n: nat, v: C): (y: seq<C>)
    ensures |y| == n
  {
    seq(n, m requires 0 <= m < n => Dft(x, v, m))
  }

  /** x[0] G(z) + x[1] G(v z) + x[2] G(v^2 z) + ..., with G the geometric sum, from index k on. */
  function Mixed(x: seq<C>, n: nat, v: C, z: C): C {
    if x == [] then ZERO
    else Add(Mul(x[0], Geometric(n, z)), Mixed(x[1..], n, v, Mul(v, z)))
  }

  lemma ShiftTerm(x: seq<C>, v: C, m: nat)
    requires x != []
    ensures Dft(x, v, m) == Add(x[0], Mul(Pow(v, m), Dft(x[1..], v, m)))
  {
  }

  /** Transforming twice mixes the inputs through geometric sums. */
  lemma {:induction false} TransformTwice(x: seq<C>, n: nat, v: C, z: C)
    ensures Poly(Transform(x, n, v), z) == Mixed(x, n, v, z)
  {
    hide Mul, Add, Pow, Dft;
    if x == [] {
      assert Transform(x, n, v) == seq(n, i => ZERO) by {
        ZeroTransform(v);
      }
      PolyOfZeros(n, z);
    } else {
      // y[m] = x0 + v^m y'[m]
      var y' := Transform(x[1..], n, v);
      var ones := seq(n, i => ONE);
      var t := Twist(y', v);
      forall m | 0 <= m < n ensures Transform(x, n, v)[m] == Combine(t, x[0], ones)[m] {
        ShiftTerm(x, v, m);
        MulOne(x[0]);
        MulComm(Pow(v, m), y'[m]);
        AddComm(x[0], t[m]);
      }
      assert Transform(x, n, v) == Combine(t, x[0], ones);
      PolyCombine(t, x[0], ones, z);
      PolyTwist(y', v, z);
      TransformTwice(x[1..], n, v, Mul(v, z));
      AddComm(Mul(x[0], Geometric(n, z)), Mixed(x[1..], n, v, Mul(v, z)));
    }
  }

  lemma ZeroTransform(v: C)
    ensures forall m: nat :: Dft([], v, m) == ZERO
  {
  }

  lemma AddComm(a: C, b: C)
    ensures Add(a, b) == Add(b, a)
  {
  }

  /** All geometric sums vanish but the one that meets z = 1, at index k. */
  lemma {:induction false} MixedPicks(x: seq<C>, n: nat, v: C, z: C, k: nat)
    requires forall i: nat :: i < |x| ==> Pow(Mul(Pow(v, i), z), n) == ONE
    requires forall i: nat :: i < |x| && i != k ==> Mul(Pow(v, i), z) != ONE
    requires k < |x| ==> Mul(Pow(v, k), z) == ONE
    ensures Mixed(x, n, v, z) == if k < |x| then Mul(x[k], Real(n)) else ZERO
    decreases |x|
  {
    hide Mul, Add, Pow, Geometric;
    if x != [] {
      PowFirst(v, z);
      assert Pow(Mul(Pow(v, 0), z), n) == ONE;
      forall i: nat | i < |x| - 1
        ensures Pow(Mul(Pow(v, i), Mul(v, z)), n) == ONE
        ensures i + 1 != k ==> Mul(Pow(v, i), Mul(v, z)) != ONE
        ensures i + 1 == k ==> Mul(Pow(v, i), Mul(v, z)) == ONE
      {
        PowNext(v, i, z);
        assert Pow(Mul(Pow(v, i + 1), z), n) == ONE;
      }
      if k == 0 {
        GeometricOne(n);
        MixedPicks(x[1..], n, v, Mul(v, z), |x|);
        AddZero(Mul(x[0], Real(n)));
      } else {
        assert Mul(Pow(v, 0), z) != ONE;
        GeometricZero(n, z);
        MulZero(x[0]);
        MixedPicks(x[1..], n, v, Mul(v, z), k - 1);
        AddZero(if k < |x| then Mul(x[k], Real(n)) else ZERO);
      }
    }
  }

  lemma PowFirst(v: C, z: C)
    ensures Mul(Pow(v, 0), z) == z
  {
    MulOne(z);
  }

  lemma PowNext(v: C, i: nat, z: C)
    ensures Mul(Pow(v, i), Mul(v, z)) == Mul(Pow(v, i + 1), z)
  {
    hide Mul;
    MulAssoc(Pow(v, i), v, z);
    MulComm(Pow(v, i), v);
  }

  lemma {:induction false} UnitPow(w: C, k: nat)
    requires Mul(w, Conj(w)) == ONE
    ensures Mul(Pow(w, k), Pow(Conj(w), k)) == ONE
  {
    hide Mul, Conj;
    PowProduct(w, Conj(w), k);
    PowOne(k);
  }

  /** conj(w)^i w^j is one exactly for i = j. */
  lemma TurnsMeet(w: C, n: nat, i: nat, j: nat)
    requires Pow(w, n) == ONE && Mul(w, Conj(w)) == ONE && Primitive(w, n) && i < n && j < n
    ensures Pow(Mul(Pow(Conj(w), i), Pow(w, j)), n) == ONE
    ensures Mul(Pow(Conj(w), i), Pow(w, j)) == ONE <==> i == j
  {
    hide Mul, Pow, Conj;
    var u := Conj(w);
    UnitPow(w, i);
    UnitPow(w, j);
    MulComm(Pow(w, i), Pow(u, i));
    // the n-th power
    PowProduct(Pow(u, i), Pow(w, j), n);
    PowMul(u, i, n);
    PowMul(u, n, i);
    Arith.MulComm(i, n);
    PowMul(w, j, n);
    PowMul(w, n, j);
    Arith.MulComm(j, n);
    PowOne(i);
    PowOne(j);
    UnitPow(w, n);
    MulOne(Pow(u, n));
    MulOne(ONE);
    // the value
    if i < j {
      PowAdd(w, i, j - i);
      MulAssoc(Pow(u, i), Pow(w, i), Pow(w, j - i));
      MulOne(Pow(w, j - i));
      assert Pow(w, j - i) != ONE;
    } else if j < i {
      PowAdd(u, j, i - j);
      MulComm(Pow(u, j), Pow(u, i - j));
      MulAssoc(Pow(u, i - j), Pow(u, j), Pow(w, j));
      MulComm(Pow(u, j), Pow(w, j));
      MulOne(Pow(u, i - j));
      UnitPow(w, i - j);
      MulOne(Pow(w, i - j));
      assert Pow(w, i - j) != ONE;
    }
  }

  /** Forward, then backward: n times the input. */
  lemma BackwardUndoesForward(x: seq<C>, w: C, j: nat)
    requires j < |x| && Pow(w, |x|) == ONE && Mul(w, Conj(w)) == ONE && Primitive(w, |x|)
    ensures Dft(Transform(x, |x|, Conj(w)), w, j) == Mul(x[j], Real(|x|))
  {
    hide Mul, Pow, Conj, Primitive, Mixed;
    var n, v, z := |x|, Conj(w), Pow(w, j);
    TransformTwice(x, n, v, z);
    forall i: nat | i < n
      ensures Pow(Mul(Pow(v, i), z), n) == ONE && (Mul(Pow(v, i), z) == ONE <==> i == j)
    {
      TurnsMeet(w, n, i, j);
    }
    MixedPicks(x, n, v, z, j);
  }

  lemma TimesCount(a: C, b: C, n: nat)
    requires n > 0 && Mul(a, Real(n)) == Mul(b, Real(n))
    ensures a == b
  {
  }

  lemma ConjTwice(a: C)
    ensures Conj(Conj(a)) == a
  {
  }

  lemma PrimitiveConj(w: C, n: nat)
    requires Primitive(w, n)
    ensures Primitive(Conj(w), n)
  {
    forall d: nat | 0 < d < n ensures Pow(Conj(w), d) != ONE {
      hide Pow;
      ConjPow(w, d);
      ConjTwice(Pow(w, d));
    }
  }

  /** Only the forward transform of x is turned into n times x. */
  lemma OnlyForward(x: seq<C>, y: seq<C>, w: C, j: nat)
    requires j < |x| == |y| && Pow(w, |x|) == ONE && Mul(w, Conj(w)) == ONE && Primitive(w, |x|)
    requires forall i :: 0 <= i < |x| ==> Dft(y, w, i) == Mul(x[i], Real(|x|))
    ensures y[j] == Dft(x, Conj(w), j)
  {
    ConjOne();
    hide *;
    var n, v := |x|, Conj(w);
    ConjTwice(w);
    ConjPow(w, n);
    MulComm(w, v);
    PrimitiveConj(w, n);
    BackwardUndoesForward(y, v, j);
    ScaledTransform(x, y, w, v, j);
    TimesCount(y[j], Dft(x, v, j), n);
  }

  lemma ScaledTransform(x: seq<C>, y: seq<C>, w: C, v: C, j: nat)
    requires |x| == |y| && forall i :: 0 <= i < |x| ==> Dft(y, w, i) == Mul(x[i], Real(|x|))
    ensures Dft(Transform(y, |x|, w), v, j) == Mul(Dft(x, v, j), Real(|x|))
  {
    hide Mul, Pow, Poly;
    PolyTimes(x, Real(|x|), Transform(y, |x|, w), Pow(v, j));
  }

  /** b is n times x. */
  ghost predicate IsMultiple(b: seq<C>, x: seq<C>) {
    |b| == |x| && forall j :: 0 <= j < |x| ==> b[j] == Mul(x[j], Real(|x|))
  }

  /**
    `cfftf` followed by `cfftb` on the same array: n times the input for every input,
    exactly for the sizes without a factor 5.
   */
  method ForwardBackward(info: Info, c: array<C>)
    requires info.Valid() && c.Length == info.n && c != info.work && c != info.tab && Smooth(info.n)
    requires Primitive(info.w, info.n)
    modifies c, info.work
    ensures info.n % 5 != 0 ==> IsMultiple(c[..], old(c[..]))
    ensures info.n % 5 == 0 && old(c[..]) == Impulse(info.n) ==> !IsMultiple(c[..], old(c[..]))
  {
    hide *;
    ghost var x := c[..];
    RootOf(info);
    info.Forward(c);
    ghost var y := c[..];
    info.Backward(c);
    TurnedBack(x, y, c[..], info.w);
  }

  lemma RootOf(info: Info)
    requires info.Valid()
    ensures Pow(info.w, info.n) == ONE && Mul(info.w, Conj(info.w)) == ONE
  {
  }

  /** z, transformed back from y, is n times x exactly if y is the forward transform of x. */
  lemma TurnedBack(x: seq<C>, y: seq<C>, z: seq<C>, w: C)
    requires |x| == |y| && Pow(w, |x|) == ONE && Mul(w, Conj(w)) == ONE && Primitive(w, |x|) && IsTransform(z, y, w)
    ensures IsTransform(y, x, Conj(w)) <==> IsMultiple(z, x)
  {
    hide Dft, Pow, Mul, Conj, Primitive;
    if IsTransform(y, x, Conj(w)) {
      assert y == Transform(x, |x|, Conj(w));
      forall j | 0 <= j < |x| ensures z[j] == Mul(x[j], Real(|x|)) {
        BackwardUndoesForward(x, w, j);
      }
    }
    if IsMultiple(z, x) {
      forall j | 0 <= j < |x| ensures y[j] == Dft(x, Conj(w), j) {
        OnlyForward(x, y, w, j);
      }
    }
  }
}
