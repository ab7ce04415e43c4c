/**
  One radix pass of the FFT on sequences, and why it is right: if every block of
  the array still has the outputs k, k + l1, k + 2 l1, ... of the whole transform
  as its own transform, then so has every (shorter) block after the pass.
 */
module FftStage {
  import opened Complex

  // ----- butterflies

  /** The irrational constants of the radix 3 and 5 passes; taur is -0.5. */
  datatype Consts = Consts(taui: real, tr11: real, ti11: real, tr12: real, ti12: real)

  /** The root of unity each radix has built in. */
  function Omega(ip: nat, pos: bool, c: Consts): C {
    if ip == 2 then C(-1.0, 0.0)
    else if ip == 3 then C(-0.5, if pos then c.taui else -c.taui)
    else if ip == 4 then C(0.0, if pos then 1.0 else -1.0)
    else C(c.tr11, if pos then c.ti11 else -c.ti11)
  }

  /** The constants are exact: taui is the sine of a third turn, the others are the fifth roots of one. */
  predicate Exact(c: Consts) {
    && c.taui * c.taui == 0.75 && c.ti11 > 0.0 && c.ti12 > 0.0
    && var z := C(c.tr11, c.ti11);
       Mul(z, z) == C(c.tr12, c.ti12) && Mul(z, Mul(z, z)) == C(c.tr12, -c.ti12)
       && Mul(z, Mul(z, Mul(z, z))) == C(c.tr11, -c.ti11) && Mul(z, C(c.tr11, -c.ti11)) == ONE
  }

  function Scale(f: real, a: C): C {
    C(f * a.re, f * a.im)
  }

  /** (a.re - b.im, a.im + b.re), that is a + i b; and a - i b. */
  function PlusI(a: C, b: C): C {
    C(a.re - b.im, a.im + b.re)
  }

  function MinusI(a: C, b: C): C {
    C(a.re + b.im, a.im - b.re)
  }

  function Radix2(x: seq<C>): (d: seq<C>)
    requires |x| == 2
    ensures |d| == 2
  {
    [Add(x[0], x[1]), Sub(x[0], x[1])]
  }

  function Radix3(x: seq<C>, pos: bool, c: Consts): (d: seq<C>)
    requires |x| == 3
    ensures |d| == 3
  {
    var t2 := Add(x[1], x[2]);
    var c2 := Add(x[0], Scale(-0.5, t2));
    var c3 := Scale(c.taui, Sub(x[1], x[2]));
    if pos then [Add(x[0], t2), PlusI(c2, c3), MinusI(c2, c3)]
    else [Add(x[0], t2), MinusI(c2, c3), PlusI(c2, c3)]
  }

  function Radix4(x: seq<C>, pos: bool): (d: seq<C>)
    requires |x| == 4
    ensures |d| == 4
  {
    var t2, t1, t3 := Add(x[0], x[2]), Sub(x[0], x[2]), Add(x[1], x[3]);
    var t4 := C(x[3].im - x[1].im, x[1].re - x[3].re);
    if pos then [Add(t2, t3), Add(t1, t4), Sub(t2, t3), Sub(t1, t4)]
    else [Add(t2, t3), Sub(t1, t4), Sub(t2, t3), Add(t1, t4)]
  }

  /** `ComplexMult(&y1, &y2, x1, x2, c1, c2)` */
  function ComplexMult(x1: real, x2: real, c1: real, c2: real): (real, real) {
    (x1 * c1 + x2 * c2, x2 * c1 - x1 * c2)
  }

  /** The two branches of `passf5`; the forward one passes its constants in another order. */
  function Radix5(x: seq<C>, pos: bool, c: Consts): (d: seq<C>)
    requires |x| == 5
    ensures |d| == 5
  {
    var t2, t3 := Add(x[1], x[4]), Add(x[2], x[3]);
    var t4, t5 := Sub(x[2], x[3]), Sub(x[1], x[4]);
    var c2 := Add(Add(x[0], Scale(c.tr11, t2)), Scale(c.tr12, t3));
    var c3 := Add(Add(x[0], Scale(c.tr12, t2)), Scale(c.tr11, t3));
    var d0 := Add(Add(x[0], t2), t3);
    if pos then
      var (c5re, c4re) := ComplexMult(c.ti11, c.ti12, t5.re, t4.re);
      var (c5im, c4im) := ComplexMult(c.ti11, c.ti12, t5.im, t4.im);
      var c4, c5 := C(c4re, c4im), C(c5re, c5im);
      [d0, PlusI(c2, c5), PlusI(c3, c4), MinusI(c3, c4), MinusI(c2, c5)]
    else
      var (c4re, c5re) := ComplexMult(c.ti12, c.ti11, t5.re, t4.re);
      var (c4im, c5im) := ComplexMult(c.ti12, c.ti11, t5.im, t4.im);
      var c4, c5 := C(c4re, c4im), C(c5re, c5im);
      [d0, MinusI(c2, c5), MinusI(c3, c4), PlusI(c3, c4), PlusI(c2, c5)]
  }

  /** The radices the passes handle; a factor 5 only in the backward direction. */
  predicate Handled(ip: nat, pos: bool) {
    ip == 2 || ip == 3 || ip == 4 || (ip == 5 && pos)
  }

  function Butterfly(ip: nat, pos: bool, c: Consts, x: seq<C>): (d: seq<C>)
    requires 2 <= ip <= 5 && |x| == ip
    ensures |d| == ip
  {
    if ip == 2 then Radix2(x)
    else if ip == 3 then Radix3(x, pos, c)
    else if ip == 4 then Radix4(x, pos)
    else Radix5(x, pos, c)
  }

  // ----- short polynomials in terms of the powers of their argument

  lemma Poly2(x: seq<C>, z: C)
    requires |x| == 2
    ensures Poly(x, z) == Add(x[0], Mul(z, x[1]))
  {
    PolyConstant(x[1], z);
    assert x[1..] == [x[1]];
  }

  lemma Poly3(x: seq<C>, z: C)
    requires |x| == 3
    ensures Poly(x, z) == Add(x[0], Add(Mul(z, x[1]), Mul(Mul(z, z), x[2])))
  {
    hide Mul, Add;
    Poly2(x[1..], z);
    MulAdd(z, x[1], Mul(z, x[2]));
    MulAssoc(z, z, x[2]);
  }

  lemma Poly4(x: seq<C>, z: C)
    requires |x| == 4
    ensures Poly(x, z) == Add(x[0], Add(Mul(z, x[1]), Add(Mul(Mul(z, z), x[2]), Mul(Mul(z, Mul(z, z)), x[3]))))
  {
    hide Mul, Add;
    Poly3(x[1..], z);
    var b, c := Mul(z, x[2]), Mul(Mul(z, z), x[3]);
    MulAdd(z, x[1], Add(b, c));
    MulAdd(z, b, c);
    MulAssoc(z, z, x[2]);
    MulAssoc(z, Mul(z, z), x[3]);
  }

  lemma Poly5(x: seq<C>, z: C)
    requires |x| == 5
    ensures Poly(x, z) == Add(x[0], Add(Mul(z, x[1]), Add(Mul(Mul(z, z), x[2]),
                          Add(Mul(Mul(z, Mul(z, z)), x[3]), Mul(Mul(z, Mul(z, Mul(z, z))), x[4])))))
  {
    hide Mul, Add;
    Poly4(x[1..], z);
    var b, c, d := Mul(z, x[2]), Mul(Mul(z, z), x[3]), Mul(Mul(z, Mul(z, z)), x[4]);
    MulAdd(z, x[1], Add(b, Add(c, d)));
    MulAdd(z, b, Add(c, d));
    MulAdd(z, c, d);
    MulAssoc(z, z, x[2]);
    MulAssoc(z, Mul(z, z), x[3]);
    MulAssoc(z, Mul(z, Mul(z, z)), x[4]);
  }

  lemma PowSmall(w: C)
    ensures Pow(w, 0) == ONE && Pow(w, 1) == w && Pow(w, 2) == Mul(w, w)
    ensures Pow(w, 3) == Mul(w, Mul(w, w)) && Pow(w, 4) == Mul(w, Mul(w, Mul(w, w)))
  {
    hide Mul;
    MulOne(w);
    assert Pow(w, 1) == Mul(w, Pow(w, 0)) && Pow(w, 2) == Mul(w, Pow(w, 1));
    assert Pow(w, 3) == Mul(w, Pow(w, 2)) && Pow(w, 4) == Mul(w, Pow(w, 3));
  }

  // ----- each butterfly is a short transform

  /** k quarter turns. */
  function Turn(k: nat): C {
    if k == 0 then ONE else if k == 1 then I else if k == 2 then C(-1.0, 0.0) else C(0.0, -1.0)
  }

  function Turned(k: nat, a: C): C {
    if k == 0 then a else if k == 1 then C(-a.im, a.re) else if k == 2 then C(-a.re, -a.im) else C(a.im, -a.re)
  }

  lemma TurnTimes(k: nat, a: C)
    requires k < 4
    ensures Mul(Turn(k), a) == Turned(k, a)
  {
  }

  /** t + t and t + t + t, counted in quarter turns. */
  function Double(t: nat): nat {
    if t == 0 || t == 2 then 0 else 2
  }

  function Triple(t: nat): nat {
    if t == 1 then 3 else if t == 3 then 1 else t
  }

  lemma TurnPowers(t: nat)
    requires t < 4
    ensures Mul(Turn(t), Turn(t)) == Turn(Double(t)) && Mul(Turn(t), Mul(Turn(t), Turn(t))) == Turn(Triple(t))
  {
    hide Mul, Turned, Turn, Double, Triple;
    TurnedAgain(t);
    TurnTimes(t, Turn(t));
    TurnTimes(t, Turn(Double(t)));
  }

  lemma TurnedAgain(t: nat)
    requires t < 4
    ensures Turned(t, Turn(t)) == Turn(Double(t)) && Turned(t, Turn(Double(t))) == Turn(Triple(t))
  {
    hide Turned, Turn, Double, Triple;
    TurnedTwice(t);
    TurnedThrice(t);
  }

  lemma TurnedTwice(t: nat)
    requires t < 4
    ensures Turned(t, Turn(t)) == Turn(Double(t))
  {
  }

  lemma TurnedThrice(t: nat)
    requires t < 4
    ensures Turned(t, Turn(Double(t))) == Turn(Triple(t))
  {
  }

  lemma Radix2IsDft(x: seq<C>, pos: bool, c: Consts, q: nat)
    requires |x| == 2 && q < 2
    ensures Radix2(x)[q] == Poly(x, Pow(Omega(2, pos, c), q))
  {
    hide *;
    Omega2(pos, c);
    PowSmall(Turn(2));
    FullTurn();
    if q == 0 {
      Poly2(x, Turn(0));
      TurnTimes(0, x[1]);
      Radix2Parts(x, 0, 0);
    } else {
      Poly2(x, Turn(2));
      TurnTimes(2, x[1]);
      Radix2Parts(x, 1, 2);
    }
  }

  lemma Omega2(pos: bool, c: Consts)
    ensures Omega(2, pos, c) == Turn(2)
  {
  }

  lemma FullTurn()
    ensures Turn(0) == ONE
  {
  }

  lemma Radix2Parts(x: seq<C>, q: nat, t: nat)
    requires |x| == 2 && q < 2 && t == if q == 0 then 0 else 2
    ensures Radix2(x)[q] == Add(x[0], Turned(t, x[1]))
  {
  }

  lemma Radix4IsDft(x: seq<C>, pos: bool, c: Consts, q: nat)
    requires |x| == 4 && q < 4
    ensures Radix4(x, pos)[q] == Poly(x, Pow(Omega(4, pos, c), q))
  {
    hide Mul, Pow, Poly;
    var s := if pos then 1 else 3;
    var t := if pos then q else Triple(q);
    assert Omega(4, pos, c) == Turn(s);
    PowSmall(Turn(s));
    TurnPowers(s);
    TurnPowers(t);
    assert Pow(Turn(s), q) == Turn(t);
    Poly4(x, Turn(t));
    TurnTimes(t, x[1]);
    TurnTimes(Double(t), x[2]);
    TurnTimes(Triple(t), x[3]);
    Radix4Parts(x, pos, q, t);
  }

  lemma Radix4Parts(x: seq<C>, pos: bool, q: nat, t: nat)
    requires |x| == 4 && q < 4 && t == if pos then q else Triple(q)
    ensures Radix4(x, pos)[q] == Add(x[0], Add(Turned(t, x[1]), Add(Turned(Double(t), x[2]), Turned(Triple(t), x[3]))))
  {
  }

  lemma Radix3IsDft(x: seq<C>, pos: bool, c: Consts, q: nat)
    requires |x| == 3 && q < 3 && Exact(c)
    ensures Radix3(x, pos, c)[q] == Poly(x, Pow(Omega(3, pos, c), q))
  {
    hide Mul, Pow, Poly;
    var s := if pos then c.taui else -c.taui;
    var w := C(-0.5, s);
    assert Omega(3, pos, c) == w;
    PowSmall(w);
    ThirdTurns(s);
    Poly3(x, Pow(w, q));
    MulOne(ONE);
    MulOne(x[1]);
    MulOne(x[2]);
    Third(x[0], x[1], x[2], s);
    Third(x[0], x[1], x[2], -s);
    Radix3Parts(x, pos, c, q, s);
  }

  lemma Radix3Parts(x: seq<C>, pos: bool, c: Consts, q: nat, s: real)
    requires |x| == 3 && q < 3 && s == if pos then c.taui else -c.taui
    ensures var c2 := Add(x[0], Scale(-0.5, Add(x[1], x[2])));
            Radix3(x, pos, c)[q] == if q == 0 then Add(x[0], Add(x[1], x[2]))
                                    else PlusI(c2, Scale(if q == 1 then s else -s, Sub(x[1], x[2])))
  {
    hide Scale;
    var d := Sub(x[1], x[2]);
    ScaleNeg(c.taui, d);
  }

  lemma ScaleNeg(f: real, a: C)
    ensures Scale(-f, a) == C(-Scale(f, a).re, -Scale(f, a).im)
  {
  }

  lemma ThirdTurns(s: real)
    requires s * s == 0.75
    ensures var w := C(-0.5, s); Mul(w, w) == C(-0.5, -s) && Mul(C(-0.5, -s), C(-0.5, -s)) == w
  {
  }

  lemma Third(a: C, b: C, d: C, s: real)
    ensures Add(a, Add(Mul(C(-0.5, s), b), Mul(C(-0.5, -s), d)))
         == PlusI(Add(a, Scale(-0.5, Add(b, d))), Scale(s, Sub(b, d)))
    ensures Scale(-s, Sub(b, d)) == C(-Scale(s, Sub(b, d)).re, -Scale(s, Sub(b, d)).im)
  {
  }

  /** The five fifth roots of one, and how they multiply. */
  function Fifth(k: nat, c: Consts): C {
    if k == 0 then ONE
    else if k == 1 then C(c.tr11, c.ti11)
    else if k == 2 then C(c.tr12, c.ti12)
    else if k == 3 then C(c.tr12, -c.ti12)
    else C(c.tr11, -c.ti11)
  }

  /** `Exact`, read as a table. */
  lemma FifthPower(k: nat, c: Consts)
    requires Exact(c) && k <= 5
    ensures Pow(Fifth(1, c), k) == if k < 5 then Fifth(k, c) else ONE
  {
    hide Mul;
    PowSmall(Fifth(1, c));
    assert Pow(Fifth(1, c), 5) == Mul(Fifth(1, c), Pow(Fifth(1, c), 4));
  }

  /** k modulo 5 for the small k that occur. */
  function Mod5(k: nat): nat {
    if k < 5 then k else if k < 10 then k - 5 else if k < 15 then k - 10 else k - 15
  }

  lemma FifthTimes(j: nat, k: nat, c: Consts)
    requires Exact(c) && j < 5 && k < 5
    ensures Mul(Fifth(j, c), Fifth(k, c)) == Fifth(Mod5(j + k), c)
  {
    hide Mul, Fifth, Exact, Pow;
    var z := Fifth(1, c);
    FifthPower(j, c);
    FifthPower(k, c);
    PowAdd(z, j, k);
    FifthPower(Mod5(j + k), c);
    if j + k >= 5 {
      FifthPower(5, c);
      PowAdd(z, 5, j + k - 5);
      MulOne(Pow(z, j + k - 5));
    }
  }

  /** The powers of a fifth root of one. */
  lemma FifthPowers(q: nat, c: Consts)
    requires Exact(c) && q < 5
    ensures var z := Fifth(q, c);
            && Mul(z, z) == Fifth(Mod5(2 * q), c)
            && Mul(z, Mul(z, z)) == Fifth(Mod5(3 * q), c)
            && Mul(z, Mul(z, Mul(z, z))) == Fifth(Mod5(4 * q), c)
  {
    hide Mul, Fifth, Exact;
    FifthTimes(q, q, c);
    FifthTimes(q, Mod5(2 * q), c);
    FifthTimes(q, Mod5(3 * q), c);
  }

  /** f a + (conjugate of f) b */
  function Paired(f: C, a: C, b: C): C {
    PlusI(Scale(f.re, Add(a, b)), Scale(f.im, Sub(a, b)))
  }

  lemma MulParts(f: C, x: C)
    ensures Mul(f, x) == PlusI(Scale(f.re, x), Scale(f.im, x))
  {
  }

  lemma ScaleAdd(f: real, x: C, y: C)
    ensures Scale(f, Add(x, y)) == Add(Scale(f, x), Scale(f, y))
  {
  }

  lemma ScaleSub(f: real, x: C, y: C)
    ensures Scale(f, Sub(x, y)) == Sub(Scale(f, x), Scale(f, y))
  {
  }

  lemma ConjPair(a: real, b: real, x: C, y: C)
    ensures Add(Mul(C(a, b), x), Mul(C(a, -b), y)) == Paired(C(a, b), x, y)
  {
    hide Mul, Scale;
    MulParts(C(a, b), x);
    MulParts(C(a, -b), y);
    ScaleAdd(a, x, y);
    ScaleSub(b, x, y);
    ScaleNeg(b, y);
  }

  /** x0 + F(q) x1 + F(2q) x2 + F(3q) x3 + F(4q) x4, with conjugate factors paired. */
  lemma FifthPaired(q: nat, c: Consts, x: seq<C>)
    requires 0 < q < 5 && |x| == 5
    ensures Add(x[0], Add(Mul(Fifth(q, c), x[1]), Add(Mul(Fifth(Mod5(2 * q), c), x[2]),
                Add(Mul(Fifth(Mod5(3 * q), c), x[3]), Mul(Fifth(Mod5(4 * q), c), x[4])))))
         == Add(x[0], Add(Paired(Fifth(q, c), x[1], x[4]), Paired(Fifth(Mod5(2 * q), c), x[2], x[3])))
  {
    var f, g := Fifth(q, c), Fifth(Mod5(2 * q), c);
    FifthConj(q, c);
    FifthConj(Mod5(2 * q), c);
    hide Mul, Scale, Fifth, PlusI, Sub;
    ConjPair(f.re, f.im, x[1], x[4]);
    ConjPair(g.re, g.im, x[2], x[3]);
    Regroup(Mul(f, x[1]), Mul(g, x[2]), Mul(Fifth(Mod5(3 * q), c), x[3]), Mul(Fifth(Mod5(4 * q), c), x[4]));
  }

  lemma FifthConj(q: nat, c: Consts)
    requires 0 < q < 5
    ensures Fifth(Mod5(4 * q), c) == C(Fifth(q, c).re, -Fifth(q, c).im)
    ensures Mod5(4 * Mod5(2 * q)) == Mod5(3 * q)
  {
  }

  lemma Regroup(a: C, b: C, d: C, e: C)
    ensures Add(a, Add(b, Add(d, e))) == Add(Add(a, e), Add(b, d))
  {
  }

  lemma Radix5IsDft(x: seq<C>, c: Consts, q: nat)
    requires |x| == 5 && q < 5 && Exact(c)
    ensures Radix5(x, true, c)[q] == Poly(x, Pow(Omega(5, true, c), q))
  {
    assert Omega(5, true, c) == Fifth(1, c);
    hide Mul, Exact, Pow, Poly, Radix5, Omega;
    FifthPower(q, c);
    FifthPowers(q, c);
    Poly5(x, Fifth(q, c));
    Radix5Parts(x, c, q);
    if q == 0 {
      MulOne(x[1]);
      MulOne(x[2]);
      MulOne(x[3]);
      MulOne(x[4]);
      Regroup(x[1], x[2], x[3], x[4]);
    } else {
      FifthPaired(q, c, x);
    }
  }

  /** The sine parts of `passf5`, written with scalings. */
  lemma Radix5SinesRe(c: Consts, t4: C, t5: C)
    ensures var (c5, c4) := ComplexMult(c.ti11, c.ti12, t5.re, t4.re);
            c5 == Scale(c.ti11, t5).re + Scale(c.ti12, t4).re && c4 == Scale(c.ti12, t5).re - Scale(c.ti11, t4).re
  {
  }

  lemma Radix5SinesIm(c: Consts, t4: C, t5: C)
    ensures var (c5, c4) := ComplexMult(c.ti11, c.ti12, t5.im, t4.im);
            c5 == Scale(c.ti11, t5).im + Scale(c.ti12, t4).im && c4 == Scale(c.ti12, t5).im - Scale(c.ti11, t4).im
  {
  }

  lemma Radix5Parts(x: seq<C>, c: Consts, q: nat)
    requires |x| == 5 && q < 5
    ensures Radix5(x, true, c)[q] ==
              if q == 0 then Add(x[0], Add(Add(x[1], x[4]), Add(x[2], x[3])))
              else Add(x[0], Add(Paired(Fifth(q, c), x[1], x[4]), Paired(Fifth(Mod5(2 * q), c), x[2], x[3])))
  {
    var t4, t5 := Sub(x[2], x[3]), Sub(x[1], x[4]);
    hide ComplexMult, Scale;
    Radix5SinesRe(c, t4, t5);
    Radix5SinesIm(c, t4, t5);
    ScaleNeg(c.ti11, t4);
    ScaleNeg(c.ti11, t5);
    ScaleNeg(c.ti12, t4);
    ScaleNeg(c.ti12, t5);
  }

  /**
    The forward branch of `passf5` swaps the roles of its two sines. It computes the
    forward transform exactly when inputs 2 and 3 agree.
   */
  lemma Radix5ForwardExact(x: seq<C>, c: Consts)
    requires |x| == 5 && Exact(c)
    ensures (forall q :: 0 <= q < 5 ==> Radix5(x, false, c)[q] == Poly(x, Pow(Omega(5, false, c), q))) <==> x[2] == x[3]
  {
    hide Exact, Pow, Poly, Mul;
    forall q | 0 <= q < 5 ensures Poly(x, Pow(Omega(5, false, c), q)) == Radix5(x, true, c)[if q == 0 then 0 else 5 - q] {
      Radix5Conjugate(x, c, q);
    }
    SinesPositive(c);
    Radix5Differs(x, c);
  }

  /** What the forward branch computes: the forward transform of the inputs with 2 and 3 exchanged. */
  lemma Radix5ForwardIs(x: seq<C>, c: Consts, q: nat)
    requires |x| == 5 && Exact(c) && q < 5
    ensures Radix5(x, false, c)[q] == Poly([x[0], x[1], x[3], x[2], x[4]], Pow(Omega(5, false, c), q))
  {
    hide *;
    Radix5Conjugate([x[0], x[1], x[3], x[2], x[4]], c, q);
    ExchangedSines(x, c);
  }

  lemma ExchangedSines(x: seq<C>, c: Consts)
    requires |x| == 5
    ensures var y := [x[0], x[1], x[3], x[2], x[4]];
            forall q :: 0 <= q < 5 ==> Radix5(x, false, c)[q] == Radix5(y, true, c)[if q == 0 then 0 else 5 - q]
  {
    var t4, t5 := Sub(x[2], x[3]), Sub(x[1], x[4]);
    SinesTurn(c, t4.re, t5.re);
    SinesTurn(c, t4.im, t5.im);
    assert Sub(x[3], x[2]) == C(0.0 - t4.re, 0.0 - t4.im) && Add(x[3], x[2]) == Add(x[2], x[3]);
    assert Add(Add(x[0], Add(x[1], x[4])), Add(x[2], x[3])) == Add(Add(x[0], Add(x[1], x[4])), Add(x[3], x[2]));
    hide ComplexMult, Scale, Add, Sub, PlusI, MinusI;
  }

  lemma SinesTurn(c: Consts, t4: real, t5: real)
    ensures var (p5, p4) := ComplexMult(c.ti11, c.ti12, t5, 0.0 - t4); var (n4, n5) := ComplexMult(c.ti12, c.ti11, t5, t4);
            p5 == n5 && p4 == n4
  {
  }

  lemma SinesPositive(c: Consts)
    requires Exact(c)
    ensures c.ti11 > 0.0 && c.ti12 > 0.0
  {
  }

  lemma Radix5Conjugate(x: seq<C>, c: Consts, q: nat)
    requires |x| == 5 && Exact(c) && q < 5
    ensures Poly(x, Pow(Omega(5, false, c), q)) == Radix5(x, true, c)[if q == 0 then 0 else 5 - q]
  {
    assert Omega(5, false, c) == Fifth(4, c) && Omega(5, true, c) == Fifth(1, c);
    hide Exact, Pow, Poly, Mul, Radix5, Omega, Fifth;
    var t := if q == 0 then 0 else 5 - q;
    FifthPower(4, c);
    PowMul(Fifth(1, c), 4, q);
    FifthPower(t, c);
    FifthTurns(c, 4 * q, t);
    Radix5IsDft(x, c, t);
  }

  /** Whole turns of a fifth root do not matter. */
  lemma FifthTurns(c: Consts, k: nat, t: nat)
    requires Exact(c) && k % 5 == t
    ensures Pow(Fifth(1, c), k) == Pow(Fifth(1, c), t)
  {
    hide Exact, Pow, Mul, Fifth;
    var z, h := Fifth(1, c), k / 5;
    assert k == 5 * h + t;
    PowAdd(z, 5 * h, t);
    PowMul(z, 5, h);
    FifthPower(5, c);
    PowOne(h);
    MulOne(Pow(z, t));
  }

  lemma Radix5Differs(x: seq<C>, c: Consts)
    requires |x| == 5 && c.ti11 > 0.0 && c.ti12 > 0.0
    ensures (forall q :: 0 <= q < 5 ==> Radix5(x, false, c)[q] == Radix5(x, true, c)[if q == 0 then 0 else 5 - q]) <==> x[2] == x[3]
  {
    var t4, t5 := Sub(x[2], x[3]), Sub(x[1], x[4]);
    SinesAgree(c, t4.re, t5.re);
    SinesAgree(c, t4.im, t5.im);
    var f, g := Radix5(x, false, c), Radix5(x, true, c);
    hide ComplexMult;
    assert f[0] == g[0];
    if x[2] == x[3] {
    } else {
      assert f[1] != g[4] by {
        assert t4.re != 0.0 || t4.im != 0.0;
      }
    }
  }

  /** The two orders of the constants agree exactly when the second input vanishes. */
  lemma SinesAgree(c: Consts, t4: real, t5: real)
    requires c.ti11 > 0.0 && c.ti12 > 0.0
    ensures var (p5, p4) := ComplexMult(c.ti11, c.ti12, t5, t4); var (n4, n5) := ComplexMult(c.ti12, c.ti11, t5, t4);
            (p5 == n5 <==> t4 == 0.0) && (p4 == n4 <==> t4 == 0.0)
  {
  }

  /** Every handled butterfly is the transform of its inputs. */
  lemma ButterflyIsDft(ip: nat, pos: bool, c: Consts, x: seq<C>, q: nat)
    requires Handled(ip, pos) && Exact(c) && |x| == ip && q < ip
    ensures Butterfly(ip, pos, c, x)[q] == Poly(x, Pow(Omega(ip, pos, c), q))
  {
    hide Poly, Pow, Omega, Exact, Radix2, Radix3, Radix4, Radix5;
    if ip == 2 {
      Radix2IsDft(x, pos, c, q);
    } else if ip == 3 {
      Radix3IsDft(x, pos, c, q);
    } else if ip == 4 {
      Radix4IsDft(x, pos, c, q);
    } else {
      Radix5IsDft(x, c, q);
    }
  }

  // ----- one block through one pass

  /** The inputs of butterfly i: every ido-th coefficient. */
  function Column(b: seq<C>, ido: nat, ip: nat, i: nat): (x: seq<C>)
    requires |b| == ip * ido && i < ido
    ensures |x| == ip
  {
    if ip == 0 then [] else
      PieceSize(ip, ido);
      [b[i]] + Column(b[ido..], ido, ip - 1, i)
  }

  lemma PieceSize(ip: nat, ido: nat)
    requires ip > 0
    ensures ip * ido == ido + (ip - 1) * ido >= ido
  {
  }

  lemma {:induction false} ColumnAt(b: seq<C>, ido: nat, ip: nat, i: nat, r: nat)
    requires |b| == ip * ido && i < ido && r < ip
    ensures r * ido + i < |b| && Column(b, ido, ip, i)[r] == b[r * ido + i]
  {
    PieceSize(ip, ido);
    if r > 0 {
      PieceSize(r, ido);
      ColumnAt(b[ido..], ido, ip - 1, i, r - 1);
    }
  }

  /** The pieces of b added up with weights 1, t, t^2, ... */
  function Fold(b: seq<C>, ido: nat, ip: nat, t: C): (d: seq<C>)
    requires |b| == ip * ido
    ensures |d| == ido
  {
    if ip == 0 then seq(ido, i => ZERO) else
      PieceSize(ip, ido);
      Combine(b[..ido], t, Fold(b[ido..], ido, ip - 1, t))
  }

  lemma {:induction false} PolyOfZeros(n: nat, z: C)
    ensures Poly(seq(n, i => ZERO), z) == ZERO
  {
    if n > 0 {
      assert seq(n, i => ZERO)[1..] == seq(n - 1, i => ZERO);
      PolyOfZeros(n - 1, z);
      MulZero(z);
      AddZero(ZERO);
    }
  }

  /** Weighting the pieces by powers of z^ido changes nothing at z. */
  lemma {:induction false} FoldPoly(b: seq<C>, ido: nat, ip: nat, z: C)
    requires |b| == ip * ido
    ensures Poly(Fold(b, ido, ip, Pow(z, ido)), z) == Poly(b, z)
  {
    hide Mul, Add, Pow, Poly;
    if ip == 0 {
      assert b == seq(0, i => ZERO);
      PolyOfZeros(ido, z);
      PolyOfZeros(0, z);
    } else {
      PieceSize(ip, ido);
      var t := Pow(z, ido);
      FoldPoly(b[ido..], ido, ip - 1, z);
      PolyCombine(b[..ido], t, Fold(b[ido..], ido, ip - 1, t), z);
      PolyConcat(b[..ido], b[ido..], z);
      assert b[..ido] + b[ido..] == b;
    }
  }

  lemma {:induction false} FoldAt(b: seq<C>, ido: nat, ip: nat, t: C, i: nat)
    requires |b| == ip * ido && i < ido
    ensures Fold(b, ido, ip, t)[i] == Poly(Column(b, ido, ip, i), t)
  {
    hide Mul, Add;
    if ip > 0 {
      PieceSize(ip, ido);
      FoldAt(b[ido..], ido, ip - 1, t, i);
      assert Column(b, ido, ip, i)[1..] == Column(b[ido..], ido, ip - 1, i);
    }
  }

  /** Block number q that a pass makes out of block b, when W is the root of the block. */
  function NewBlock(b: seq<C>, ido: nat, ip: nat, q: nat, pos: bool, c: Consts, W: C): (e: seq<C>)
    requires 2 <= ip <= 5 && |b| == ip * ido && q < ip
    ensures |e| == ido
  {
    seq(ido, i requires 0 <= i < ido => Mul(Butterfly(ip, pos, c, Column(b, ido, ip, i))[q], Pow(Pow(W, q), i)))
  }

  /** Output m of the new block is output q + ip m of the old one. */
  lemma BlockStep(b: seq<C>, ido: nat, ip: nat, q: nat, pos: bool, c: Consts, W: C, m: nat)
    requires Handled(ip, pos) && Exact(c) && |b| == ip * ido && q < ip
    requires Pow(W, ido) == Omega(ip, pos, c) && Pow(W, ip * ido) == ONE
    ensures Poly(NewBlock(b, ido, ip, q, pos, c, W), Pow(Pow(W, ip), m)) == Poly(b, Pow(W, q + ip * m))
  {
    hide Mul, Add, Pow, Poly, Butterfly, Omega, Exact, Column;
    var e, t := NewBlock(b, ido, ip, q, pos, c, W), Pow(Omega(ip, pos, c), q);
    forall i | 0 <= i < ido ensures e[i] == Mul(Poly(Column(b, ido, ip, i), t), Pow(Pow(W, q), i)) {
      ButterflyIsDft(ip, pos, c, Column(b, ido, ip, i), q);
    }
    BlockPoly(b, e, ido, ip, q, W, Omega(ip, pos, c), m);
  }

  /** The transforms of all columns, twiddled, are a block that has every ip-th output of the old one, from q on. */
  lemma BlockPoly(b: seq<C>, e: seq<C>, ido: nat, ip: nat, q: nat, W: C, omega: C, m: nat)
    requires |b| == ip * ido && |e| == ido && Pow(W, ido) == omega && Pow(W, ip * ido) == ONE
    requires forall i :: 0 <= i < ido ==> e[i] == Mul(Poly(Column(b, ido, ip, i), Pow(omega, q)), Pow(Pow(W, q), i))
    ensures Poly(e, Pow(Pow(W, ip), m)) == Poly(b, Pow(W, q + ip * m))
  {
    hide Mul, Add, Pow, Poly, Column;
    var z, t := Pow(W, q + ip * m), Pow(omega, q);
    var d := Fold(b, ido, ip, t);
    forall i | 0 <= i < ido ensures e[i] == Twist(d, Pow(W, q))[i] {
      FoldAt(b, ido, ip, t, i);
    }
    assert e == Twist(d, Pow(W, q));
    PolyTwist(d, Pow(W, q), Pow(Pow(W, ip), m));
    PowMul(W, ip, m);
    PowAdd(W, q, ip * m);
    RootPower(ido, ip, q, W, omega, m);
    FoldPoly(b, ido, ip, z);
  }

  /** (W^(q + ip m))^ido is omega^q. */
  lemma RootPower(ido: nat, ip: nat, q: nat, W: C, omega: C, m: nat)
    requires Pow(W, ido) == omega && Pow(W, ip * ido) == ONE
    ensures Pow(Pow(W, q + ip * m), ido) == Pow(omega, q)
  {
    hide Mul, Pow;
    var n := q + ip * m;
    PowMul(W, n, ido);
    PowMul(W, ido, n);
    assert n * ido == ido * n;
    PowAdd(omega, q, ip * m);
    PowMul(omega, ip, m);
    PowMul(W, ido, ip);
    assert ido * ip == ip * ido;
    PowOne(m);
    MulOne(Pow(omega, q));
  }
}
