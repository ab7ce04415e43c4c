/**
  `cffti1`: factorises n, puts a factor 2 in front, and lays out the twiddle
  factors in the order the passes consume them.
 */
module CfftInit {
  import Arith
  import opened Cfft

  predicate Divides(d: nat, n: nat)
    requires d > 0
  {
    n % d == 0
  }

  // ----- factorisation

  /** No number from 2 to b divides n. */
  ghost predicate Cleared(n: nat, b: nat) {
    forall d: nat :: 2 <= d <= b ==> !Divides(d, n)
  }

  lemma DividesTrans(d: nat, m: nat, k: nat)
    requires d > 0 && Divides(d, m)
    ensures Divides(d, k * m)
  {
    var q, r := Arith.DivMod(m, d);
    assert k * m == d * (k * q) by {
      Arith.MulAssoc(k, d, q);
      Arith.MulComm(k, d);
      Arith.MulAssoc(d, k, q);
    }
    Arith.MulNonneg(k, q);
    Arith.DivUnique(k * m, d, k * q, 0);
  }

  lemma ClearedQuotient(n: nat, k: nat, m: nat, b: nat)
    requires n == k * m && Cleared(n, b)
    ensures Cleared(m, b)
  {
    forall d: nat | 2 <= d <= b ensures !Divides(d, m) {
      if Divides(d, m) {
        DividesTrans(d, m, k);
      }
    }
  }

  /** The quotient of an exact division. */
  lemma ExactQuotient(n: nat, d: nat) returns (q: nat)
    requires d > 0 && Divides(d, n)
    ensures q == n / d && n == d * q && (n > 0 ==> q > 0)
  {
    var r;
    q, r := Arith.DivMod(n, d);
  }

  /** What is not divisible by 2 is not divisible by any even number. */
  lemma NoEvenDivisor(n: nat, d: nat)
    requires n % 2 != 0 && d % 2 == 0 && d > 0
    ensures !Divides(d, n)
  {
    if Divides(d, n) {
      EvenDivides(n, d);
    }
  }

  lemma EvenDivides(n: nat, d: nat)
    requires d % 2 == 0 && d > 0 && Divides(d, n)
    ensures n % 2 == 0
  {
    var q, r := Arith.DivMod(n, d);
    var h := d / 2;
    Arith.MulAssoc(2, h, q);
    assert n == 2 * (h * q);
  }

  /** Every number above 1 divides itself, so what has been cleared up to b is larger than b. */
  lemma ClearedIsLarge(n: nat, b: nat)
    requires n > 1 && Cleared(n, b)
    ensures n > b
  {
    if n <= b {
      Arith.DivUnique(n, n, 1, 0);
      assert Divides(n, n);
    }
  }

  function Pow3(k: nat): nat {
    if k == 0 then 1 else 3 * Pow3(k - 1)
  }

  /** Only the first factor can be 2. */
  predicate TwoFirst(f: seq<nat>) {
    forall j :: 0 <= j < |f| ==> f[j] >= 2 && (j > 0 ==> f[j] >= 3)
  }

  lemma {:induction false} ProductAtLeast(f: seq<nat>)
    requires forall j :: 0 <= j < |f| ==> f[j] >= 3
    ensures Product(f) >= Pow3(|f|)
  {
    if f != [] {
      var p := Product(f[1..]);
      ProductAtLeast(f[1..]);
      Arith.MulDist(p, 3, f[0] - 3);
      Arith.MulNonneg(p, f[0] - 3);
      Arith.MulComm(p, f[0]);
    }
  }

  /** Below 65536 there are at most ten factors, so `ifac[15]` is large enough. */
  lemma FewFactors(f: seq<nat>)
    requires TwoFirst(f) && Product(f) < 0x1_0000
    ensures |f| <= 10
  {
    if |f| > 10 {
      var p := Product(f[1..]);
      ProductAtLeast(f[1..]);
      Arith.MulDist(p, 2, f[0] - 2);
      Arith.MulNonneg(p, f[0] - 2);
      Arith.MulComm(p, f[0]);
      Pow3Grows(10, |f| - 1);
      Pow3Ten();
    }
  }

  lemma {:induction false} Pow3Grows(a: nat, b: nat)
    requires a <= b
    ensures Pow3(a) <= Pow3(b)
  {
    if a < b {
      Pow3Grows(a, b - 1);
    }
  }

  lemma Pow3Ten()
    ensures Pow3(10) == 59049
  {
    assert Pow3(2) == 9;
    assert Pow3(4) == 9 * Pow3(2);
    assert Pow3(6) == 9 * Pow3(4);
    assert Pow3(8) == 9 * Pow3(6);
    assert Pow3(10) == 9 * Pow3(8);
  }

  lemma {:induction false} ProductAppend(f: seq<nat>, k: nat)
    ensures Product(f + [k]) == Product(f) * k
  {
    if f == [] {
      assert [k][1..] == [];
      assert Product([k]) == k * Product([]);
    } else {
      assert (f + [k])[1..] == f[1..] + [k];
      ProductAppend(f[1..], k);
      Arith.MulAssoc(f[0], Product(f[1..]), k);
    }
  }

  // ----- numbers whose factors all have a pass

  /** n is built from 2, 3 and 5 alone. */
  predicate Smooth(n: nat) {
    n == 1 || (n > 1 && ((n % 2 == 0 && Smooth(n / 2)) || (n % 3 == 0 && Smooth(n / 3)) || (n % 5 == 0 && Smooth(n / 5))))
  }

  /** A prime 2, 3 or 5 that divides d q but not d divides q. */
  lemma PrimeDividesOther(d: nat, q: nat, p: nat, m: nat)
    requires (p == 2 || p == 3 || p == 5) && d * q == p * m && d % p != 0
    ensures q % p == 0
  {
    var d1, a := Arith.DivMod(d, p);
    var q1, b := Arith.DivMod(q, p);
    var t := p * (d1 * q1) + d1 * b + q1 * a;
    assert d * q == p * t + a * b by {
      Residues(p, d1, a, q1, b);
    }
    SmallResidues(p, a, b, m - t);
  }

  lemma Residues(p: nat, d1: nat, a: nat, q1: nat, b: nat)
    ensures (p * d1 + a) * (p * q1 + b) == p * (p * (d1 * q1) + d1 * b + q1 * a) + a * b
  {
    Arith.MulDist(p * d1 + a, p * q1, b);
    Arith.MulAssoc(p, d1, p * q1);
    Arith.MulAssoc(d1, p, q1);
    Arith.MulAssoc(p, d1, q1);
    Arith.MulComm(d1, p);
  }

  lemma SmallResidues(p: nat, a: nat, b: nat, k: int)
    requires (p == 2 || p == 3 || p == 5) && 0 < a < p && b < p && a * b == p * k
    ensures b == 0
  {
  }

  /** Every divisor above 1 of a smooth number has a factor 2, 3 or 5. */
  lemma {:induction false} SmoothDivisor(n: nat, d: nat)
    requires Smooth(n) && d > 1 && Divides(d, n)
    ensures d % 2 == 0 || d % 3 == 0 || d % 5 == 0
  {
    var q := ExactQuotient(n, d);
    if n == 1 {
      Arith.MulGe(d, q);
    } else if d % 2 != 0 && d % 3 != 0 && d % 5 != 0 {
      if n % 2 == 0 && Smooth(n / 2) {
        SmoothPart(n, d, q, 2);
        SmoothDivisor(n / 2, d);
      } else if n % 3 == 0 && Smooth(n / 3) {
        SmoothPart(n, d, q, 3);
        SmoothDivisor(n / 3, d);
      } else {
        SmoothPart(n, d, q, 5);
        SmoothDivisor(n / 5, d);
      }
    }
  }

  lemma SmoothPart(n: nat, d: nat, q: nat, p: nat)
    requires (p == 2 || p == 3 || p == 5) && n == d * q && d % p != 0 && d > 0
    requires n == p * (n / p)
    ensures Divides(d, n / p)
  {
    PrimeDividesOther(d, q, p, n / p);
    var h, z := Arith.DivMod(q, p);
    assert q == p * h;
    assert p * (n / p) == p * (d * h) by {
      Arith.MulAssoc(d, p, h);
      Arith.MulComm(d, p);
      Arith.MulAssoc(p, d, h);
    }
    assert n / p == d * h;
    Arith.DivUnique(n / p, d, h, 0);
  }

  lemma SmoothIf(m: nat)
    requires m > 1
    requires (m % 2 == 0 && Smooth(m / 2)) || (m % 3 == 0 && Smooth(m / 3)) || (m % 5 == 0 && Smooth(m / 5))
    ensures Smooth(m)
  {
  }

  lemma SmoothPositive(n: nat)
    requires Smooth(n)
    ensures n > 0
  {
  }

  lemma SmoothPrime(p: nat, n: nat)
    requires Smooth(n) && (p == 2 || p == 3 || p == 5)
    ensures Smooth(p * n)
  {
    hide Smooth;
    SmoothPositive(n);
    var m := p * n;
    if p == 2 {
      assert m == 2 * n && m % 2 == 0 && m / 2 == n;
    } else if p == 3 {
      assert m == 3 * n && m % 3 == 0 && m / 3 == n;
    } else {
      assert m == 5 * n && m % 5 == 0 && m / 5 == n;
    }
    SmoothIf(m);
  }

  lemma SmoothTimes(k: nat, n: nat)
    requires Smooth(n) && (k == 2 || k == 3 || k == 4 || k == 5)
    ensures Smooth(k * n)
  {
    hide Smooth;
    if k == 4 {
      SmoothPrime(2, n);
      SmoothPrime(2, 2 * n);
      assert 2 * (2 * n) == k * n;
    } else {
      SmoothPrime(k, n);
    }
  }

  lemma {:induction false} SmoothProduct(f: seq<nat>)
    requires forall j :: 0 <= j < |f| ==> 2 <= f[j] <= 5
    ensures Smooth(Product(f))
  {
    if f != [] {
      SmoothProduct(f[1..]);
      SmoothTimes(f[0], Product(f[1..]));
    }
  }

  /** Something left over with no factor up to 5 gives away that n is not smooth. */
  lemma NotSmooth(n: nat, f: seq<nat>, nl: nat)
    requires n == Product(f) * nl && nl > 1 && Cleared(nl, 6)
    ensures !Smooth(n)
  {
    Arith.MulComm(Product(f), nl);
    Arith.DivUnique(n, nl, Product(f), 0);
    assert !Divides(2, nl) && !Divides(3, nl) && !Divides(5, nl);
    if Smooth(n) {
      SmoothDivisor(n, nl);
    }
  }

  // ----- the loop of `cffti1`

  /** `ntryh[]`, then every second number from 7 on. */
  function Candidate(j: nat): nat
    requires j > 0
  {
    if j == 1 then 3 else if j == 2 then 4 else if j == 3 then 2 else 2 * j - 3
  }

  /** What trial number j has cleared. */
  ghost predicate Tried(nl: nat, j: nat) {
    if j == 0 then true
    else if j == 1 then !Divides(3, nl)
    else if j == 2 then !Divides(3, nl) && !Divides(4, nl)
    else if j == 3 then Cleared(nl, 4)
    else Cleared(nl, Candidate(j) + 1)
  }

  lemma TriedQuotient(n: nat, k: nat, m: nat, j: nat)
    requires n == k * m && Tried(n, j)
    ensures Tried(m, j)
  {
    if j >= 3 {
      ClearedQuotient(n, k, m, if j == 3 then 4 else Candidate(j) + 1);
    } else {
      if j >= 1 && Divides(3, m) {
        DividesTrans(3, m, k);
      }
      if j >= 2 && Divides(4, m) {
        DividesTrans(4, m, k);
      }
    }
  }

  /** One more candidate that does not divide. */
  lemma TriedNext(nl: nat, j: nat)
    requires nl > 0 && Tried(nl, j) && !Divides(Candidate(j + 1), nl)
    ensures Tried(nl, j + 1)
  {
    if j == 2 {
      NoEvenDivisor(nl, 4);
    } else if j > 2 {
      assert !Divides(2, nl);
      assert Candidate(j + 1) + 1 == 2 * j;
      NoEvenDivisor(nl, 2 * j);
    }
  }

  /** A candidate never exceeds what is left, so `ntry` stays in sixteen bits and the search ends. */
  lemma CandidateFits(nl: nat, j: nat)
    requires nl > 1 && Tried(nl, j)
    ensures j >= 3 ==> Candidate(j + 1) <= nl
  {
    if j >= 3 {
      ClearedIsLarge(nl, if j == 3 then 4 else Candidate(j) + 1);
    }
  }

  /** The factors stored so far. */
  function Stored(ifac: array<nat>, nf: nat): (f: seq<nat>)
    reads ifac
    requires ifac.Length == 15 && nf <= 13
    ensures |f| == nf
  {
    ifac[2..2 + nf]
  }

  /** Stores one more factor, a factor 2 in front of all others. */
  method StoreFactor(ifac: array<nat>, nf: nat, ntry: nat)
    requires ifac.Length == 15 && 1 <= nf <= 13
    modifies ifac
    ensures Stored(ifac, nf) == (if ntry == 2 && nf != 1 then [2] + old(Stored(ifac, nf - 1)) else old(Stored(ifac, nf - 1)) + [ntry])
  {
    ghost var f := Stored(ifac, nf - 1);
    ifac[nf + 1] := ntry;
    if ntry == 2 && nf != 1 {
      for i := 2 to nf + 1
        invariant forall t :: 2 <= t < nf - i + 3 ==> ifac[t] == (if t == nf + 1 then 2 else f[t - 2])
        invariant forall t :: nf - i + 3 < t <= nf + 1 ==> ifac[t] == f[t - 3]
      {
        var ib := nf - i + 2;
        ifac[ib + 1] := ifac[ib];
      }
      ifac[2] := 2;
      assert Stored(ifac, nf) == [2] + f;
    } else {
      assert Stored(ifac, nf) == f + [ntry];
    }
  }

  /** The factors found so far and what is left of n. */
  ghost predicate Partial(n: nat, f: seq<nat>, nl: nat) {
    && nl > 0 && n == Product(f) * nl && TwoFirst(f)
    && ((exists t :: 0 <= t < |f| && f[t] > 5) ==> !Smooth(n))
  }

  predicate NoTwo(f: seq<nat>) {
    forall t :: 0 <= t < |f| ==> f[t] >= 3
  }

  predicate EndsInFive(f: seq<nat>) {
    f != [] && f[|f| - 1] == 5
  }

  /** In the order of the trials: 3, 4, 5, 7 and so on; the 2 goes to the front. */
  predicate Precedes(a: nat, b: nat) {
    a == 2 || a == 3 || (a == 4 && b >= 4) || (5 <= a <= b)
  }

  predicate Rising(f: seq<nat>) {
    forall s, t :: 0 <= s < t < |f| ==> Precedes(f[s], f[t])
  }

  /** Nothing that only a later trial finds. */
  predicate UpTo(f: seq<nat>, j: nat) {
    j == 0 || forall t :: 0 <= t < |f| ==> f[t] == 2 || f[t] == 3 || (f[t] == 4 && j >= 2) || (j >= 4 && 5 <= f[t] <= Candidate(j))
  }

  lemma RisingFound(f: seq<nat>, f': seq<nat>, j: nat)
    requires j > 0 && Rising(f) && UpTo(f, j)
    requires f' == if Candidate(j) == 2 && |f| > 0 then [2] + f else f + [Candidate(j)]
    ensures Rising(f') && UpTo(f', j)
  {
    if Candidate(j) == 2 && |f| > 0 {
      assert forall t :: 0 < t < |f'| ==> f'[t] == f[t - 1];
    } else {
      assert forall t :: 0 <= t < |f| ==> f'[t] == f[t];
    }
  }

  /** The factors 5 come last, unless a larger one follows. */
  predicate Ordered(f: seq<nat>, j: nat) {
    && Rising(f) && UpTo(f, j) && (j == 0 ==> f == [])
    && (j <= 3 ==> forall t :: 0 <= t < |f| ==> f[t] <= 4)
    && ((forall t :: 0 <= t < |f| ==> f[t] <= 4) || (exists t :: 0 <= t < |f| && f[t] > 5) || EndsInFive(f))
  }

  lemma OrderedFound(f: seq<nat>, f': seq<nat>, j: nat)
    requires j > 0 && Ordered(f, j)
    requires f' == if Candidate(j) == 2 && |f| > 0 then [2] + f else f + [Candidate(j)]
    ensures Ordered(f', j)
  {
    RisingFound(f, f', j);
    hide Rising, UpTo;
    if j <= 3 {
      forall t | 0 <= t < |f'| ensures f'[t] <= 4 {
      }
    } else {
      assert f'[|f|] == Candidate(j) >= 5;
    }
  }

  /** A product of factors below 5 has no factor 5. */
  lemma {:induction false} NoFive(f: seq<nat>)
    requires forall t :: 0 <= t < |f| ==> 2 <= f[t] <= 4
    ensures Product(f) % 5 != 0
  {
    if f != [] {
      NoFive(f[1..]);
      assert f[0] == 2 || f[0] == 3 || f[0] == 4;
      NoFiveTimes(f[0], Product(f[1..]));
    }
  }

  lemma NoFiveTimes(a: nat, p: nat)
    requires 2 <= a <= 4 && p % 5 != 0
    ensures (a * p) % 5 != 0
  {
    var q, r := p / 5, p % 5;
    if a == 2 {
      assert a * p == 2 * p == 5 * (2 * q) + 2 * r;
    } else if a == 3 {
      assert a * p == 3 * p == 5 * (3 * q) + 3 * r;
    } else {
      assert a * p == 4 * p == 5 * (4 * q) + 4 * r;
    }
  }

  /** Between two candidates: the first j have been cleared. */
  ghost predicate Searching(n: nat, f: seq<nat>, nl: nat, j: nat) {
    Partial(n, f, nl) && Tried(nl, j) && (j < 3 ==> NoTwo(f)) && Ordered(f, j)
  }

  /** While candidate j is being divided out. A 2 can be found once only, since 4 is cleared. */
  ghost predicate Dividing(n: nat, f: seq<nat>, nl: nat, j: nat) {
    && j > 0 && Partial(n, f, nl) && Tried(nl, j - 1) && Ordered(f, j)
    && (j < 3 ==> NoTwo(f)) && (j == 3 ==> NoTwo(f) || !Divides(2, nl))
  }

  lemma StartSearch(n: nat)
    requires n >= 2
    ensures Searching(n, [], n, 0)
  {
  }

  lemma NextFits(n: nat, f: seq<nat>, nl: nat, j: nat)
    requires Searching(n, f, nl, j) && nl > 1
    ensures Dividing(n, f, nl, j + 1) && (j >= 3 ==> Candidate(j + 1) <= nl)
  {
    hide Partial, NoTwo, EndsInFive;
    CandidateFits(nl, j);
  }

  lemma CandidateDone(n: nat, f: seq<nat>, nl: nat, j: nat)
    requires Dividing(n, f, nl, j) && !Divides(Candidate(j), nl)
    ensures Searching(n, f, nl, j)
  {
    hide NoTwo, EndsInFive;
    TriedNext(nl, j - 1);
  }

  lemma SearchEnds(n: nat, f: seq<nat>, j: nat)
    requires Searching(n, f, 1, j)
    ensures Product(f) == n && TwoFirst(f)
    ensures Smooth(n) <==> forall t :: 0 <= t < |f| ==> f[t] <= 5
    ensures Smooth(n) && n % 5 == 0 ==> EndsInFive(f)
    ensures Rising(f)
  {
    hide Rising, UpTo;
    if forall t :: 0 <= t < |f| ==> f[t] <= 4 {
      NoFive(f);
    }
    if forall t :: 0 <= t < |f| ==> f[t] <= 5 {
      SmoothProduct(f);
    }
  }

  /** Dividing once by candidate j; f' is f with the candidate stored. */
  lemma FoundFactor(n: nat, f: seq<nat>, f': seq<nat>, nl: nat, j: nat)
    requires Dividing(n, f, nl, j) && n < 0x1_0000 && Divides(Candidate(j), nl)
    requires f' == if Candidate(j) == 2 && |f| > 0 then [2] + f else f + [Candidate(j)]
    ensures Dividing(n, f', nl / Candidate(j), j) && 0 < nl / Candidate(j) < nl && |f'| <= 10
  {
    hide Smooth, Cleared, Ordered;
    OrderedFound(f, f', j);
    var b := Candidate(j);
    var nq := ExactQuotient(nl, b);
    Arith.MulDist(nq, 1, b - 1);
    Arith.MulGe(nq, b - 1);
    Arith.MulComm(nq, b);
    FoundProduct(f, f', b, nq, n, nl);
    TriedQuotient(nl, b, nq, j - 1);
    FoundTwo(f, f', nl, nq, j);
    if b > 5 {
      assert j >= 5;
      ClearedSix(nl, j - 1);
      NotSmooth(n, f, nl);
    }
    Arith.MulGe(Product(f'), nq);
    FewFactors(f');
  }

  lemma FoundTwo(f: seq<nat>, f': seq<nat>, nl: nat, nq: nat, j: nat)
    requires j > 0 && Tried(nl, j - 1) && (j < 3 ==> NoTwo(f)) && (j == 3 ==> NoTwo(f) || !Divides(2, nl))
    requires nl == Candidate(j) * nq && Divides(Candidate(j), nl) && TwoFirst(f)
    requires f' == if Candidate(j) == 2 && |f| > 0 then [2] + f else f + [Candidate(j)]
    ensures TwoFirst(f') && (j < 3 ==> NoTwo(f')) && (j == 3 ==> !Divides(2, nq))
  {
    if j == 3 && nq % 2 == 0 {
      TwiceEven(nq);
    }
  }

  lemma TwiceEven(q: nat)
    requires q % 2 == 0
    ensures Divides(4, 2 * q)
  {
  }

  lemma ClearedSix(nl: nat, j: nat)
    requires Tried(nl, j) && j >= 4
    ensures Cleared(nl, 6)
  {
  }

  lemma FoundProduct(f: seq<nat>, f': seq<nat>, b: nat, nq: nat, n: nat, nl: nat)
    requires n == Product(f) * nl && nl == b * nq && (f' == [b] + f || f' == f + [b])
    ensures Product(f') * nq == n
  {
    Arith.MulAssoc(Product(f), b, nq);
    if f' == f + [b] {
      ProductAppend(f, b);
    } else {
      assert f'[1..] == f;
      Arith.MulComm(b, Product(f));
    }
  }

  /** The inner loop of `cffti1`: divides by the candidate as often as it goes. */
  method TakeOut(n: nat, ifac: array<nat>, nl0: nat, nf0: nat, j: nat, ntry: nat) returns (nl: nat, nf: nat)
    requires n < 0x1_0000 && ifac.Length == 15 && nf0 <= 10 && j > 0 && ntry == Candidate(j)
    requires Dividing(n, Stored(ifac, nf0), nl0, j)
    modifies ifac
    ensures nf <= 10 && 0 < nl <= nl0 && Searching(n, Stored(ifac, nf), nl, j)
  {
    hide Dividing, Searching, Tried;
    nl, nf := nl0, nf0;
    PartialLeft(n, Stored(ifac, nf), nl, j);
    while nl % ntry == 0
      invariant nf <= 10 && 0 < nl <= nl0 && Dividing(n, Stored(ifac, nf), nl, j)
      decreases nl
    {
      ghost var f := Stored(ifac, nf);
      nf := nf + 1;
      StoreFactor(ifac, nf, ntry);
      FoundFactor(n, f, Stored(ifac, nf), nl, j);
      nl := nl / ntry;
    }
    CandidateDone(n, Stored(ifac, nf), nl, j);
  }

  lemma PartialLeft(n: nat, f: seq<nat>, nl: nat, j: nat)
    requires Dividing(n, f, nl, j)
    ensures nl > 0
  {
  }

  /** The factorisation part of `cffti1`. */
  method Factorise(n: nat, ifac: array<nat>)
    requires 2 <= n < 0x1_0000 && ifac.Length == 15
    modifies ifac
    ensures ifac[0] == n && ifac[1] <= 10
    ensures var f := ifac[2..2 + ifac[1]];
            && Product(f) == n && TwoFirst(f) && Rising(f)
            && (Smooth(n) <==> forall t :: 0 <= t < |f| ==> f[t] <= 5)
            && (Smooth(n) && n % 5 == 0 ==> EndsInFive(f))
  {
    hide Product, Smooth, TwoFirst, Rising, Searching, Dividing;
    var nl: nat, nf: nat, j: nat, ntry: nat := n, 0, 0, 0;
    StartSearch(n);
    while nl != 1
      invariant nf <= 10 && 0 < nl <= n && Searching(n, Stored(ifac, nf), nl, j)
      invariant j > 0 ==> ntry == Candidate(j)
      decreases if j < 3 then 3 - j else 0, n + 10 - ntry
    {
      NextFits(n, Stored(ifac, nf), nl, j);
      j := j + 1;
      if j <= 4 {
        ntry := if j == 1 then 3 else if j == 2 then 4 else if j == 3 then 2 else 5;
      } else {
        ntry := ntry + 2;
      }
      assert ntry == Candidate(j) && ntry < 0x1_0000;
      nl, nf := TakeOut(n, ifac, nl, nf, j, ntry);
    }
    ifac[0] := n;
    ifac[1] := nf;
    assert ifac[2..2 + nf] == Stored(ifac, nf);
    SearchEnds(n, Stored(ifac, nf), j);
  }
}
