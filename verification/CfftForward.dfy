/**
  What `cfftf` computes, for every size with factors up to 5 and every input. A forward
  `passf5` exchanges its inputs 2 and 3, so on its way to output m a sample is turned by
  fifths of a circle for each factor 5 at which it has the digit 2 or 3.
 */
module CfftForward {
  import Arith
  import opened Complex
  import opened FftStage
  import opened Cfft

  // ----- the turns

  /** How an input with number r of a butterfly is turned on its way to output q. */
  function TurnBy(ip: nat, c: Consts, r: nat, q: nat): C {
    if ip == 5 && r == 2 then Pow(Omega(5, false, c), q)
    else if ip == 5 && r == 3 then Pow(Omega(5, false, c), 4 * q)
    else ONE
  }

  predicate AtLeastTwo(f: seq<nat>) {
    forall t :: 0 <= t < |f| ==> f[t] >= 2
  }

  function Quotient(j: nat, d: nat): nat
    requires d > 0
  {
    j / d
  }

  function Digit(j: nat, d: nat): nat
    requires d > 0
  {
    j % d
  }

  /** The same through all passes: r is the next digit of sample j, q the next one of output m. */
  function Turn(f: seq<nat>, c: Consts, m: nat, j: nat): C
    requires AtLeastTwo(f)
    decreases |f|
  {
    if f == [] then ONE
    else
      ProductPositive(f[1..]);
      var ido := Product(f[1..]);
      Mul(TurnBy(f[0], c, Quotient(j, ido), Digit(m, f[0])), Turn(f[1..], c, Quotient(m, f[0]), Digit(j, ido)))
  }

  function Turned(x: seq<C>, f: seq<nat>, c: Consts, m: nat): (y: seq<C>)
    requires AtLeastTwo(f)
    ensures |y| == |x|
  {
    seq(|x|, j requires 0 <= j < |x| => Mul(x[j], Turn(f, c, m, j)))
  }

  /** Output m of b is output m of the transform of x, turned for m. */
  ghost predicate IsTurned(b: seq<C>, x: seq<C>, f: seq<nat>, c: Consts, v: C)
    requires AtLeastTwo(f)
  {
    |b| == |x| && forall m :: 0 <= m < |x| ==> b[m] == Dft(Turned(x, f, c, m), v, m)
  }

  /** Without a factor 5 nothing is turned. */
  lemma {:induction false} NoTurn(f: seq<nat>, c: Consts, m: nat, j: nat)
    requires forall t :: 0 <= t < |f| ==> f[t] >= 2 && f[t] != 5
    ensures Turn(f, c, m, j) == ONE
    decreases |f|
  {
    hide Mul, Product, TurnBy, Turn;
    if f == [] {
      NoFactors(c, m, j);
    } else {
      TurnStep(f, c, m, j);
      NoTurn(f[1..], c, m / f[0], j % Product(f[1..]));
      NotFive(f[0], c, j / Product(f[1..]), m % f[0]);
      MulOne(ONE);
    }
  }

  lemma NoFactors(c: Consts, m: nat, j: nat)
    ensures Turn([], c, m, j) == ONE
  {
  }

  lemma NotFive(ip: nat, c: Consts, r: nat, q: nat)
    requires ip != 5
    ensures TurnBy(ip, c, r, q) == ONE
  {
  }

  lemma TurnStep(f: seq<nat>, c: Consts, m: nat, j: nat)
    requires f != [] && AtLeastTwo(f)
    ensures Product(f[1..]) > 0
    ensures Turn(f, c, m, j)
         == Mul(TurnBy(f[0], c, j / Product(f[1..]), m % f[0]), Turn(f[1..], c, m / f[0], j % Product(f[1..])))
  {
    hide Mul, Product, TurnBy;
    ProductPositive(f[1..]);
  }

  lemma NotTurned(x: seq<C>, f: seq<nat>, c: Consts, m: nat)
    requires forall t :: 0 <= t < |f| ==> f[t] >= 2 && f[t] != 5
    ensures Turned(x, f, c, m) == x
  {
    hide Mul, Turn;
    forall j | 0 <= j < |x| ensures Turned(x, f, c, m)[j] == x[j] {
      NoTurn(f, c, m, j);
      MulOne(x[j]);
    }
  }

  // ----- one butterfly

  /** Exchanging inputs 2 and 3 is turning them, once round with five fifths. */
  lemma ExchangeTurns(x: seq<C>, y: seq<C>, t: C)
    requires |x| == |y| == 5 && Mul(t, Mul(t, Mul(t, Mul(t, t)))) == ONE
    requires y[0] == x[0] && y[1] == x[1] && y[4] == x[4]
    requires y[2] == Mul(x[2], t) && y[3] == Mul(x[3], Mul(t, Mul(t, Mul(t, t))))
    ensures Poly(y, t) == Poly([x[0], x[1], x[3], x[2], x[4]], t)
  {
    var z := [x[0], x[1], x[3], x[2], x[4]];
    Poly5(y, t);
    Poly5(z, t);
    hide Mul, Add, Poly;
    var t2, t3 := Mul(t, t), Mul(t, Mul(t, t));
    var t4 := Mul(t, t3);
    // t^2 (x2 t) = t^3 x2
    MulComm(x[2], t);
    MulAssoc(t2, t, x[2]);
    MulComm(t2, t);
    // t^3 (x3 t^4) = t^2 x3
    MulComm(x[3], t4);
    MulAssoc(t3, t4, x[3]);
    MulAssoc(t2, t, t4);
    MulComm(t2, t);
    MulOne(t2);
    var a, b, d := Mul(t2, x[3]), Mul(t3, x[2]), Mul(t4, x[4]);
    AddAssoc(a, b, d);
    AddAssoc(b, a, d);
    SumComm(a, b);
  }

  lemma SumComm(a: C, b: C)
    ensures Add(a, b) == Add(b, a)
  {
  }

  /** Powers of a fifth of a turn. */
  lemma FifthOfTurn(c: Consts, q: nat)
    requires Exact(c)
    ensures var t := Pow(Omega(5, false, c), q);
            && Pow(Omega(5, false, c), 4 * q) == Mul(t, Mul(t, Mul(t, t)))
            && Mul(t, Mul(t, Mul(t, Mul(t, t)))) == ONE
  {
    hide *;
    OmegaIsFifth(c);
    var w := Omega(5, false, c);
    var t := Pow(w, q);
    FifthPower(4, c);
    PowMul(w, q, 4);
    PowMul(w, q, 5);
    PowMul(w, 5, q);
    PowMul(Fifth(1, c), 4, 5);
    FifthTurns(c, 20, 0);
    PowSmall(Fifth(1, c));
    PowOne(q);
    Powers(t);
  }

  lemma OmegaIsFifth(c: Consts)
    ensures Omega(5, false, c) == Fifth(4, c)
  {
  }

  lemma Powers(t: C)
    ensures Pow(t, 4) == Mul(t, Mul(t, Mul(t, t))) && Pow(t, 5) == Mul(t, Mul(t, Mul(t, Mul(t, t))))
  {
    hide Mul;
    MulOne(t);
    assert Pow(t, 1) == t;
    assert Pow(t, 2) == Mul(t, t);
    assert Pow(t, 3) == Mul(t, Mul(t, t));
  }

  /** A forward butterfly is the transform of its inputs, turned. */
  lemma ForwardButterfly(ip: nat, c: Consts, x: seq<C>, y: seq<C>, q: nat)
    requires 2 <= ip <= 5 && Exact(c) && |x| == |y| == ip && q < ip
    requires forall r :: 0 <= r < ip ==> y[r] == Mul(x[r], TurnBy(ip, c, r, q))
    ensures Poly(y, Pow(Omega(ip, false, c), q)) == Butterfly(ip, false, c, x)[q]
  {
    forall r | 0 <= r < ip ensures Mul(x[r], ONE) == x[r] {
      MulOne(x[r]);
    }
    hide Mul, Pow, Omega, Exact, Poly;
    if ip == 5 {
      FifthOfTurn(c, q);
      ExchangeTurns(x, y, Pow(Omega(5, false, c), q));
      Radix5ForwardIs(x, c, q);
      hide Radix5;
    } else {
      assert y == x;
      hide Butterfly;
      ButterflyIsDft(ip, false, c, x, q);
    }
  }

  lemma TurnedButterfly(ip: nat, c: Consts, x: seq<C>, y: seq<C>, q: nat, s: C)
    requires 2 <= ip <= 5 && Exact(c) && |x| == |y| == ip && q < ip
    requires forall r :: 0 <= r < ip ==> y[r] == Mul(x[r], Mul(TurnBy(ip, c, r, q), s))
    ensures Poly(y, Pow(Omega(ip, false, c), q)) == Mul(Butterfly(ip, false, c, x)[q], s)
  {
    hide *;
    var z := seq(ip, r requires 0 <= r < ip => Mul(x[r], TurnBy(ip, c, r, q)));
    ForwardButterfly(ip, c, x, z, q);
    forall r | 0 <= r < ip ensures y[r] == Mul(z[r], s) {
      MulAssoc(x[r], TurnBy(ip, c, r, q), s);
    }
    PolyTimes(z, s, y, Pow(Omega(ip, false, c), q));
  }

  // ----- one block through one pass

  lemma TurnAt(f: seq<nat>, c: Consts, m: nat, r: nat, i: nat)
    requires f != [] && AtLeastTwo(f) && i < Product(f[1..])
    ensures Turn(f, c, m, r * Product(f[1..]) + i)
         == Mul(TurnBy(f[0], c, r, m % f[0]), Turn(f[1..], c, m / f[0], i))
  {
    hide Mul, TurnBy, Turn, Product;
    var ido := Product(f[1..]);
    TurnStep(f, c, m, r * ido + i);
    Arith.MulComm(r, ido);
    Arith.DivUnique(r * ido + i, ido, r, i);
  }

  /** Turning what one pass leaves for the passes g to come is turning what goes into it for all. */
  lemma StageTurned(b: seq<C>, ip: nat, g: seq<nat>, ido: nat, c: Consts, W: C, q: nat, m: nat, M: nat)
    requires 2 <= ip <= 5 && AtLeastTwo([ip] + g) && AtLeastTwo(g) && ido == Product(g) && Exact(c) && q < ip
    requires |b| == ip * ido && Pow(W, ido) == Omega(ip, false, c) && Pow(W, |b|) == ONE && M == q + ip * m
    ensures Poly(Turned(NewBlock(b, ido, ip, q, false, c, W), g, c, m), Pow(Pow(W, ip), m))
         == Poly(Turned(b, [ip] + g, c, M), Pow(W, M))
  {
    hide *;
    var e := NewBlock(b, ido, ip, q, false, c, W);
    var e', b' := Turned(e, g, c, m), Turned(b, [ip] + g, c, M);
    forall i | 0 <= i < ido
      ensures e'[i] == Mul(Poly(Column(b', ido, ip, i), Pow(Omega(ip, false, c), q)), Pow(Pow(W, q), i))
    {
      EntryTurned(b, ip, g, ido, c, W, q, m, M, i);
    }
    BlockPoly(b', e', ido, ip, q, W, Omega(ip, false, c), m);
  }

  lemma EntryTurned(b: seq<C>, ip: nat, g: seq<nat>, ido: nat, c: Consts, W: C, q: nat, m: nat, M: nat, i: nat)
    requires 2 <= ip <= 5 && AtLeastTwo([ip] + g) && AtLeastTwo(g) && ido == Product(g) && Exact(c) && q < ip
    requires |b| == ip * ido && M == q + ip * m && i < ido
    ensures Turned(NewBlock(b, ido, ip, q, false, c, W), g, c, m)[i]
         == Mul(Poly(Column(Turned(b, [ip] + g, c, M), ido, ip, i), Pow(Omega(ip, false, c), q)), Pow(Pow(W, q), i))
  {
    hide *;
    var f := [ip] + g;
    assert f[0] == ip && f[1..] == g;
    var e, s := NewBlock(b, ido, ip, q, false, c, W), Turn(g, c, m, i);
    var b' := Turned(b, f, c, M);
    var x, y := Column(b, ido, ip, i), Column(b', ido, ip, i);
    Arith.DivUnique(M, ip, m, q);
    forall r | 0 <= r < ip ensures y[r] == Mul(x[r], Mul(TurnBy(ip, c, r, q), s)) {
      ColumnAt(b, ido, ip, i, r);
      ColumnAt(b', ido, ip, i, r);
      TurnAt(f, c, M, r, i);
      TurnedAt(b, f, c, M, r * ido + i);
    }
    TurnedButterfly(ip, c, x, y, q, s);
    NewBlockAt(b, ido, ip, q, false, c, W, i);
    TurnedAt(e, g, c, m, i);
    var d, p := Butterfly(ip, false, c, x)[q], Pow(Pow(W, q), i);
    // (d p) s = (d s) p
    MulAssoc(d, p, s);
    MulComm(p, s);
    MulAssoc(d, s, p);
  }

  lemma TurnedAt(x: seq<C>, f: seq<nat>, c: Consts, m: nat, j: nat)
    requires AtLeastTwo(f) && j < |x|
    ensures Turned(x, f, c, m)[j] == Mul(x[j], Turn(f, c, m, j))
  {
    hide Mul, Turn;
  }

  // ----- all passes

  lemma TwoToFive(f: seq<nat>)
    requires f != [] && forall t :: 0 <= t < |f| ==> 2 <= f[t] <= 5
    ensures 2 <= f[0] <= 5 && AtLeastTwo([f[0]] + f[1..]) && AtLeastTwo(f[1..])
  {
  }

  /** One pass: an output of the block it makes, on the way through the passes g, is one of the block it reads. */
  lemma PassLeads(s: Pass, a: seq<C>, mid: seq<C>, g: seq<nat>, n: nat, k: nat, q: nat, m: nat, M: nat, l: nat)
    requires s.Valid() && !s.pos && IsStage(s, a, mid) && 2 <= s.ip <= 5 && q < s.ip && k < s.l1
    requires IsRoot(s.v, n, false, s.c) && n == s.l1 * (s.ip * s.ido) && Exact(s.c)
    requires AtLeastTwo([s.ip] + g) && AtLeastTwo(g) && s.ido == Product(g)
    requires l == s.ip * s.ido && M == q + s.ip * m
    ensures (k + s.l1 * q + 1) * s.ido <= |mid| && (k + 1) * l <= |a|
    ensures Poly(Turned(Block(mid, s.ido, k + s.l1 * q), g, s.c, m), Pow(Pow(Pow(s.v, s.l1), s.ip), m))
         == Poly(Turned(Block(a, l, k), [s.ip] + g, s.c, M), Pow(Pow(s.v, s.l1), M))
  {
    hide *;
    StageRoots(s, n);
    StageBlockAt(s, a, mid, q, k);
    StageTurned(Block(a, l, k), s.ip, g, s.ido, s.c, Pow(s.v, s.l1), q, m, M);
  }

  lemma {:induction false} RunsLead(a: seq<C>, b: seq<C>, f: seq<nat>, l1: nat, n: nat, c: Consts, v: C, k: nat, m: nat)
    requires Runs(a, b, f, l1, false, c, v) && (forall t :: 0 <= t < |f| ==> 2 <= f[t] <= 5)
    requires |a| == n == l1 * Product(f) && l1 > 0 && IsRoot(v, n, false, c) && Exact(c) && k < l1 && m < Product(f)
    ensures (k + 1) * Product(f) <= |a| && k + l1 * m < |b|
    ensures b[k + l1 * m] == Poly(Turned(Block(a, Product(f), k), f, c, m), Pow(Pow(v, l1), m))
    decreases |f|
  {
    hide *;
    BlockFits(l1, Product(f), k);
    if f == [] {
      RunsNothing(a, b, l1, c, v, k, m);
    } else {
      var ip, ido := f[0], Product(f[1..]);
      var mid := FirstStage(a, b, f, l1, c, v);
      var s := Pass(ip, l1, ido, false, c, v);
      ProductIs(f);
      Arith.MulAssoc(l1, ip, ido);
      var m', q := Arith.DivMod(m, ip);
      DigitBound(ip, ido, m', q);
      BlockIndex(l1, ip, k, q);
      OutputIndex(l1, ip, q, k, m');
      Arith.MulGe(l1, ip);
      RunsLead(mid, b, f[1..], l1 * ip, n, c, v, k + l1 * q, m');
      TwoToFive(f);
      assert f == [ip] + f[1..];
      PowMul(v, l1, ip);
      PassLeads(s, a, mid, f[1..], n, k, q, m', m, Product(f));
    }
  }

  lemma ProductIs(f: seq<nat>)
    requires f != []
    ensures Product(f) == f[0] * Product(f[1..])
  {
  }

  lemma DigitBound(ip: nat, ido: nat, m: nat, q: nat)
    requires ip * m + q < ip * ido
    ensures m < ido
  {
    if m >= ido {
      Arith.MulDist(ip, ido, m - ido);
      Arith.MulNonneg(ip, m - ido);
    }
  }

  lemma RunsNothing(a: seq<C>, b: seq<C>, l1: nat, c: Consts, v: C, k: nat, m: nat)
    requires Runs(a, b, [], l1, false, c, v) && |a| == l1 * Product([]) && k < l1 && m < Product([])
    ensures (k + 1) * Product([]) <= |a| && k + l1 * m < |b|
    ensures b[k + l1 * m] == Poly(Turned(Block(a, Product([]), k), [], c, m), Pow(Pow(v, l1), m))
  {
    assert Product([]) == 1 && m == 0;
    hide Mul, Pow, Poly;
    MulOne(a[k]);
    var y := Turned(Block(a, 1, k), [], c, m);
    assert y == [a[k]];
    PolyConstant(a[k], Pow(Pow(v, l1), m));
  }

  lemma FirstStage(a: seq<C>, b: seq<C>, f: seq<nat>, l1: nat, c: Consts, v: C) returns (mid: seq<C>)
    requires Runs(a, b, f, l1, false, c, v) && f != []
    ensures StageTo(a, mid, f, l1, false, c, v) && Runs(mid, b, f[1..], l1 * f[0], false, c, v)
    ensures Pass(f[0], l1, Product(f[1..]), false, c, v).Valid() && IsStage(Pass(f[0], l1, Product(f[1..]), false, c, v), a, mid)
    ensures |mid| == |a| == l1 * (f[0] * Product(f[1..])) && Product(f[1..]) > 0
  {
    hide IsStage;
    mid :| StageTo(a, mid, f, l1, false, c, v) && Runs(mid, b, f[1..], l1 * f[0], false, c, v);
    StageSize(Pass(f[0], l1, Product(f[1..]), false, c, v), a, mid);
  }

  lemma StageBlockAt(s: Pass, a: seq<C>, b: seq<C>, q: nat, k: nat)
    requires s.Valid() && IsStage(s, a, b) && q < s.ip && k < s.l1
    ensures (k + s.l1 * q + 1) * s.ido <= |b| && (k + 1) * (s.ip * s.ido) <= |a|
    ensures Block(b, s.ido, k + s.l1 * q)
         == NewBlock(Block(a, s.ip * s.ido, k), s.ido, s.ip, q, s.pos, s.c, Pow(s.v, s.l1))
  {
    hide NewBlock, Block, Pow;
    assert StageBlock(s, a, b, q, k);
  }

  /** Every output of the forward passes, for every input. */
  lemma ForwardIs(x: seq<C>, b: seq<C>, f: seq<nat>, c: Consts, v: C)
    requires Runs(x, b, f, 1, false, c, v) && (forall t :: 0 <= t < |f| ==> 2 <= f[t] <= 5)
    requires |x| == Product(f) == |b| && IsRoot(v, |x|, false, c) && Exact(c)
    ensures IsTurned(b, x, f, c, v)
  {
    hide Turned, Runs, IsRoot, Exact, Pow, Poly;
    PowSmall(v);
    forall m | 0 <= m < |x| ensures b[m] == Dft(Turned(x, f, c, m), v, m) {
      RunsLead(x, b, f, 1, |x|, c, v, 0, m);
      assert Block(x, |x|, 0) == x;
    }
  }
}
