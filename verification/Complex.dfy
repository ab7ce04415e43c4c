/**
  Exact complex numbers as pairs of reals, their powers, and polynomials with
  complex coefficients. The discrete Fourier transform of c at output m is the
  polynomial c taken at w^m.
 */
module Complex {

  /** `complex_t`, with exact parts. */
  datatype C = C(re: real, im: real)

  const ZERO := C(0.0, 0.0)
  const ONE := C(1.0, 0.0)
  const I := C(0.0, 1.0)

  function Add(a: C, b: C): C {
    C(a.re + b.re, a.im + b.im)
  }

  function Sub(a: C, b: C): C {
    C(a.re - b.re, a.im - b.im)
  }

  function Mul(a: C, b: C): C {
    C(a.re * b.re - a.im * b.im, a.re * b.im + a.im * b.re)
  }

  function Conj(a: C): C {
    C(a.re, -a.im)
  }

  function Pow(w: C, k: nat): C {
    if k == 0 then ONE else Mul(w, Pow(w, k - 1))
  }

  /** The polynomial with coefficients x, constant term first, at z. */
  function Poly(x: seq<C>, z: C): C {
    if x == [] then ZERO else Add(x[0], Mul(z, Poly(x[1..], z)))
  }

  /** Output m of the transform of x with root w. */
  function Dft(x: seq<C>, w: C, m: nat): C {
    Poly(x, Pow(w, m))
  }

  // ----- the ring

  lemma MulComm(a: C, b: C)
    ensures Mul(a, b) == Mul(b, a)
  {
  }

  lemma MulAssoc(a: C, b: C, c: C)
    ensures Mul(a, Mul(b, c)) == Mul(Mul(a, b), c)
  {
  }

  lemma MulAdd(a: C, b: C, c: C)
    ensures Mul(a, Add(b, c)) == Add(Mul(a, b), Mul(a, c))
  {
  }

  lemma MulOne(a: C)
    ensures Mul(a, ONE) == a && Mul(ONE, a) == a
  {
  }

  lemma MulZero(a: C)
    ensures Mul(a, ZERO) == ZERO && Mul(ZERO, a) == ZERO
  {
  }

  lemma AddZero(a: C)
    ensures Add(a, ZERO) == a && Add(ZERO, a) == a
  {
  }

  lemma AddSwap(a: C, b: C, c: C, d: C)
    ensures Add(Add(a, b), Add(c, d)) == Add(Add(a, c), Add(b, d))
  {
  }

  lemma AddAssoc(a: C, b: C, c: C)
    ensures Add(Add(a, b), c) == Add(a, Add(b, c))
  {
  }

  lemma MulSwap(a: C, b: C, c: C)
    ensures Mul(a, Mul(b, c)) == Mul(b, Mul(a, c))
  {
    MulAssoc(a, b, c);
    MulComm(a, b);
    MulAssoc(b, a, c);
  }

  lemma ConjMul(a: C, b: C)
    ensures Conj(Mul(a, b)) == Mul(Conj(a), Conj(b))
  {
  }

  // ----- powers

  lemma {:induction false} PowAdd(w: C, a: nat, b: nat)
    ensures Pow(w, a + b) == Mul(Pow(w, a), Pow(w, b))
  {
    hide Mul;
    if a == 0 {
      MulOne(Pow(w, b));
    } else {
      PowAdd(w, a - 1, b);
      MulAssoc(w, Pow(w, a - 1), Pow(w, b));
    }
  }

  lemma {:induction false} PowOne(k: nat)
    ensures Pow(ONE, k) == ONE
  {
    hide Mul;
    if k > 0 {
      PowOne(k - 1);
      MulOne(ONE);
    }
  }

  lemma {:induction false} PowMul(w: C, a: nat, b: nat)
    ensures Pow(Pow(w, a), b) == Pow(w, a * b)
  {
    hide Mul;
    if b > 0 {
      PowMul(w, a, b - 1);
      PowAdd(w, a, a * (b - 1));
      assert a + a * (b - 1) == a * b;
    }
  }

  lemma {:induction false} PowProduct(a: C, b: C, k: nat)
    ensures Pow(Mul(a, b), k) == Mul(Pow(a, k), Pow(b, k))
  {
    if k == 0 {
      MulOne(ONE);
    } else {
      PowProduct(a, b, k - 1);
      Interchange(a, b, Pow(a, k - 1), Pow(b, k - 1));
    }
  }

  lemma Interchange(a: C, b: C, c: C, d: C)
    ensures Mul(Mul(a, b), Mul(c, d)) == Mul(Mul(a, c), Mul(b, d))
  {
    hide Mul;
    MulAssoc(a, b, Mul(c, d));
    MulSwap(b, c, d);
    MulAssoc(a, c, Mul(b, d));
  }

  lemma {:induction false} ConjPow(w: C, k: nat)
    ensures Conj(Pow(w, k)) == Pow(Conj(w), k)
  {
    if k > 0 {
      ConjPow(w, k - 1);
      ConjMul(w, Pow(w, k - 1));
    }
  }

  // ----- polynomials

  lemma {:induction false} PolyConcat(a: seq<C>, b: seq<C>, z: C)
    ensures Poly(a + b, z) == Add(Poly(a, z), Mul(Pow(z, |a|), Poly(b, z)))
  {
    hide Mul, Add;
    if a == [] {
      assert a + b == b;
      MulOne(Poly(b, z));
      AddZero(Poly(b, z));
    } else {
      assert (a + b)[1..] == a[1..] + b;
      PolyConcat(a[1..], b, z);
      var p, q := Poly(a[1..], z), Mul(Pow(z, |a| - 1), Poly(b, z));
      MulAdd(z, p, q);
      MulAssoc(z, Pow(z, |a| - 1), Poly(b, z));
      AddAssoc(a[0], Mul(z, p), Mul(z, q));
    }
  }

  /** a + f b, coefficient by coefficient. */
  function Combine(a: seq<C>, f: C, b: seq<C>): (r: seq<C>)
    requires |a| == |b|
    ensures |r| == |a|
  {
    seq(|a|, i requires 0 <= i < |a| => Add(a[i], Mul(f, b[i])))
  }

  lemma {:induction false} PolyCombine(a: seq<C>, f: C, b: seq<C>, z: C)
    requires |a| == |b|
    ensures Poly(Combine(a, f, b), z) == Add(Poly(a, z), Mul(f, Poly(b, z)))
  {
    hide Mul, Add;
    if a == [] {
      MulZero(f);
      AddZero(ZERO);
    } else {
      PolyCombine(a[1..], f, b[1..], z);
      assert Combine(a, f, b)[1..] == Combine(a[1..], f, b[1..]);
      var p, q := Poly(a[1..], z), Poly(b[1..], z);
      MulAdd(z, p, Mul(f, q));
      MulSwap(z, f, q);
      AddSwap(a[0], Mul(f, b[0]), Mul(z, p), Mul(f, Mul(z, q)));
      MulAdd(f, b[0], Mul(z, q));
    }
  }

  lemma {:induction false} PolyTimes(x: seq<C>, k: C, y: seq<C>, z: C)
    requires |y| == |x| && forall i :: 0 <= i < |x| ==> y[i] == Mul(x[i], k)
    ensures Poly(y, z) == Mul(Poly(x, z), k)
  {
    hide Mul;
    if x == [] {
      MulZero(k);
    } else {
      PolyTimes(x[1..], k, y[1..], z);
      MulComm(Add(x[0], Mul(z, Poly(x[1..], z))), k);
      MulAdd(k, x[0], Mul(z, Poly(x[1..], z)));
      MulComm(k, x[0]);
      MulComm(k, Mul(z, Poly(x[1..], z)));
      MulAssoc(z, Poly(x[1..], z), k);
    }
  }

  /** Coefficient i multiplied by s^i. */
  function Twist(a: seq<C>, s: C): (r: seq<C>)
    ensures |r| == |a|
  {
    seq(|a|, i requires 0 <= i < |a| => Mul(a[i], Pow(s, i)))
  }

  lemma {:induction false} PolyTwistFrom(a: seq<C>, s: C, k: nat, z: C)
    ensures Poly(seq(|a|, i requires 0 <= i < |a| => Mul(a[i], Pow(s, k + i))), z) == Mul(Pow(s, k), Poly(a, Mul(s, z)))
  {
    hide Mul, Add;
    var t := seq(|a|, i requires 0 <= i < |a| => Mul(a[i], Pow(s, k + i)));
    if a == [] {
      MulZero(Pow(s, k));
    } else {
      var u := seq(|a| - 1, i requires 0 <= i < |a| - 1 => Mul(a[1..][i], Pow(s, k + 1 + i)));
      PolyTwistFrom(a[1..], s, k + 1, z);
      assert t[1..] == u;
      var p := Poly(a[1..], Mul(s, z));
      assert Pow(s, k + 1) == Mul(s, Pow(s, k));
      // z * (s * s^k * p) == s^k * ((s * z) * p)
      MulComm(s, Pow(s, k));
      MulAssoc(Pow(s, k), s, p);
      MulSwap(z, Pow(s, k), Mul(s, p));
      MulSwap(z, s, p);
      MulAssoc(s, z, p);
      MulAdd(Pow(s, k), a[0], Mul(Mul(s, z), p));
      MulComm(a[0], Pow(s, k));
    }
  }

  lemma PolyTwist(a: seq<C>, s: C, z: C)
    ensures Poly(Twist(a, s), z) == Poly(a, Mul(s, z))
  {
    PolyTwistFrom(a, s, 0, z);
    assert Twist(a, s) == seq(|a|, i requires 0 <= i < |a| => Mul(a[i], Pow(s, 0 + i)));
    MulOne(Poly(a, Mul(s, z)));
  }

  // ----- the transform as a sum

  function SumTo(n: nat, f: nat -> C): C {
    if n == 0 then ZERO else Add(SumTo(n - 1, f), f(n - 1))
  }

  /** The j-th term of the sum that output m is. */
  function Term(x: seq<C>, w: C, m: nat): nat -> C {
    (j: nat) => if j < |x| then Mul(x[j], Pow(w, j * m)) else ZERO
  }

  /** Output m is the sum of x[j] w^(j m). */
  lemma DftIsSum(x: seq<C>, w: C, m: nat)
    ensures Dft(x, w, m) == SumTo(|x|, Term(x, w, m))
  {
    hide Mul, Add, Pow;
    assert x[..|x|] == x;
    PolyIsSum(x, w, m, |x|);
  }

  lemma {:induction false} PolyIsSum(x: seq<C>, w: C, m: nat, n: nat)
    requires n <= |x|
    ensures Poly(x[..n], Pow(w, m)) == SumTo(n, Term(x, w, m))
  {
    hide Mul, Add, Pow;
    if n > 0 {
      var z := Pow(w, m);
      PolyIsSum(x, w, m, n - 1);
      assert x[..n] == x[..n - 1] + [x[n - 1]];
      PolyConcat(x[..n - 1], [x[n - 1]], z);
      PolyConstant(x[n - 1], z);
      MulComm(Pow(z, n - 1), x[n - 1]);
      PowMul(w, m, n - 1);
      assert m * (n - 1) == (n - 1) * m;
    }
  }

  lemma PolyConstant(a: C, z: C)
    ensures Poly([a], z) == a
  {
    MulZero(z);
    AddZero(a);
  }
}
