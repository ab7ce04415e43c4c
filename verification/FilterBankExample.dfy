/** The conditions under which the filterbank reconstructs can be met, for every frame length divisible by 16. */
module FilterBankExample {
  import opened FilterBank

  /** Both halves of 4h samples folded onto themselves: a forward transform without the cosines. */
  function Fold(h: nat, x: seq<real>): (f: seq<real>)
    requires |x| == 4 * h
    ensures |f| == 2 * h
  {
    seq(2 * h, i requires 0 <= i < 2 * h => if i < h then x[i] - x[2 * h - 1 - i] else x[h + i] + x[5 * h - 1 - i])
  }

  function Unfold(h: nat, f: seq<real>): (x: seq<real>)
    requires |f| == 2 * h
    ensures |x| == 4 * h
  {
    seq(4 * h, i requires 0 <= i < 4 * h =>
      if i < h then f[i] else if i < 2 * h then 0.0 - f[2 * h - 1 - i] else if i < 3 * h then f[i - h] else f[5 * h - 1 - i])
  }

  lemma FoldsBack(h: nat, x: seq<real>)
    requires |x| == 4 * h && |x| % 2 == 0
    ensures Unfold(h, Fold(h, x)) == Alias(x)
  {
    var y, z := Unfold(h, Fold(h, x)), Alias(x);
    assert |x| / 2 == 2 * h;
    forall i | 0 <= i < 4 * h ensures y[i] == z[i] {
      UnfoldAt(h, x, i);
      AliasAt(h, x, i);
    }
  }

  lemma UnfoldAt(h: nat, x: seq<real>, i: nat)
    requires |x| == 4 * h && i < 4 * h
    ensures Unfold(h, Fold(h, x))[i] == if i < 2 * h then x[i] - x[2 * h - 1 - i] else x[i] + x[6 * h - 1 - i]
  {
    var f := Fold(h, x);
    if i < h {
    } else if i < 2 * h {
      assert f[2 * h - 1 - i] == x[2 * h - 1 - i] - x[i];
    } else if i < 3 * h {
      assert f[i - h] == x[i] + x[6 * h - 1 - i];
    } else {
      assert f[5 * h - 1 - i] == x[6 * h - 1 - i] + x[i];
    }
  }

  lemma AliasAt(h: nat, x: seq<real>, i: nat)
    requires |x| == 4 * h && |x| % 2 == 0 && |x| / 2 == 2 * h && i < 4 * h
    ensures Alias(x)[i] == if i < 2 * h then x[i] - x[2 * h - 1 - i] else x[i] + x[6 * h - 1 - i]
  {
  }

  /** Three fifths, then four fifths: the squares of mirrored samples add up to one. */
  function Slope35(n: nat): (w: seq<real>)
    requires n % 2 == 0
    ensures |w| == n
  {
    seq(n, i => if i < n / 2 then 0.6 else 0.8)
  }

  lemma SlopeComplements(n: nat)
    requires n % 2 == 0
    ensures PowerComplementary(Slope35(n))
  {
    var w := Slope35(n);
    assert MulF(0.6, 0.6) + MulF(0.8, 0.8) == 1.0;
    hide MulF;
    forall i | 0 <= i < |w| ensures Complements(w, i) {
    }
  }

  function ForwardOf(x: seq<real>): seq<real> {
    if |x| % 4 == 0 then Fold(|x| / 4, x) else []
  }

  function InverseOf(f: seq<real>): seq<real> {
    if |f| % 2 == 0 then Unfold(|f| / 2, f) else []
  }

  function Example(s: nat): Bank
    requires s % 2 == 0
  {
    Bank(8 * s, [Slope35(8 * s), Slope35(8 * s)], [Slope35(s), Slope35(s)], ForwardOf, InverseOf, ForwardOf, InverseOf)
  }

  lemma ConditionsCanBeMet(s: nat)
    requires 0 < s <= 128 && s % 2 == 0
    ensures var fb := Example(s); fb.n == 8 * s && fb.Valid() && Aliasing(fb) && Princen(fb)
  {
    hide *;
    SlopeComplements(8 * s);
    SlopeComplements(s);
    ExampleValid(s);
    ExampleAliases(s);
    ExamplePrincen(s);
  }

  lemma ExampleValid(s: nat)
    requires 0 < s <= 128 && s % 2 == 0
    ensures Example(s).n == 8 * s && Example(s).Valid()
  {
    hide Slope35, Fold, Unfold, Bank.EvenSizes;
    var fb := Example(s);
    assert fb.n == 8 * s && 8 * s == 16 * (s / 2);
    SixteensOf(s / 2);
    EvenForSixteens(fb);
    EighthOf(s);
  }

  lemma SixteensOf(q: nat)
    ensures (16 * q) % 16 == 0
  {
  }

  lemma EighthOf(s: nat)
    ensures 8 * s / 8 == s
  {
  }

  lemma ExampleAliases(s: nat)
    requires 0 < s <= 128 && s % 2 == 0 && Example(s).Valid()
    ensures Aliasing(Example(s))
  {
    hide Slope35, Fold, Unfold, Alias;
    var fb := Example(s);
    assert fb.n == 8 * s && fb.S() == s;
    forall x: seq<real> | |x| == 2 * fb.n ensures fb.imdct(fb.mdct(x)) == Alias(x) {
      BackAndForth(4 * s, x);
    }
    forall x: seq<real> | |x| == 2 * fb.S() ensures fb.imdctShort(fb.mdctShort(x)) == Alias(x) {
      BackAndForth(s / 2, x);
    }
  }

  lemma BackAndForth(h: nat, x: seq<real>)
    requires |x| == 4 * h
    ensures |x| % 2 == 0 && InverseOf(ForwardOf(x)) == Alias(x)
  {
    hide Fold, Unfold, Alias;
    assert |x| % 4 == 0 && |x| / 4 == h;
    var f := Fold(h, x);
    assert |f| % 2 == 0 && |f| / 2 == h;
    FoldsBack(h, x);
  }

  lemma ExamplePrincen(s: nat)
    requires s % 2 == 0 && Example(s).Valid()
    requires PowerComplementary(Slope35(8 * s)) && PowerComplementary(Slope35(s))
    ensures Princen(Example(s))
  {
    hide Slope35, PowerComplementary, Bank.Valid;
    var fb := Example(s);
    forall h | 0 <= h < 2 ensures PowerComplementary(fb.long[h]) && PowerComplementary(fb.short[h]) {
      assert h == 0 || h == 1;
    }
  }
}
