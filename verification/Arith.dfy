/** Small facts about products and quotients, each proved where no other fact can distract. */
module Arith {

  lemma MulDist(a: int, b: int, c: int)
    ensures a * (b + c) == a * b + a * c
  {
  }

  lemma MulGe(a: int, b: int)
    requires a >= 0 && b >= 1
    ensures a * b >= a
  {
    MulDist(a, b - 1, 1);
    MulNonneg(a, b - 1);
  }

  lemma MulNonneg(a: int, b: int)
    requires a >= 0 && b >= 0
    ensures a * b >= 0
  {
  }

  lemma MulComm(a: int, b: int)
    ensures a * b == b * a
  {
  }

  lemma MulAssoc(a: int, b: int, c: int)
    ensures a * (b * c) == (a * b) * c
  {
  }

  lemma DivMod(x: nat, d: nat) returns (q: nat, r: nat)
    requires d > 0
    ensures q == x / d && r == x % d && x == d * q + r && r < d
  {
    q, r := x / d, x % d;
  }

  lemma {:induction false} Unique(d: nat, q: nat, r: nat, q': nat, r': nat)
    requires r < d && r' < d && d * q + r == d * q' + r'
    ensures q == q' && r == r'
  {
    if q < q' {
      MulDist(d, q, q' - q);
      MulGe(d, q' - q);
    } else if q' < q {
      MulDist(d, q', q - q');
      MulGe(d, q - q');
    }
  }

  lemma DivUnique(x: nat, d: nat, q: nat, r: nat)
    requires d > 0 && x == d * q + r && r < d
    ensures x / d == q && x % d == r
  {
    var q', r' := DivMod(x, d);
    Unique(d, q, r, q', r');
  }
}
