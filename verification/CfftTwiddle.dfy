/**
  The twiddle table of `cffti1`, and the whole FFT: set up once for n, then
  transforming in either direction.
 */
module CfftTwiddle {
  import Arith
  import opened Complex
  import opened FftStage
  import opened Cfft
  import opened CfftInit

  // ----- layout

  /** The rows of stage t start where everything the earlier stages used ends: at n minus what is left to split. */
  ghost predicate StageRows(wa: seq<C>, n: nat, f: seq<nat>, t: nat, c: Consts, w: C) {
    t < |f| ==>
      && Product(f[t..]) <= n
      && TwiddlesFor(Pass(f[t], Product(f[..t]), Product(f[t + 1..]), true, c, w), wa, n - Product(f[t..]))
  }

  lemma {:induction false} TableFromRows(wa: seq<C>, n: nat, f: seq<nat>, t: nat, c: Consts, w: C)
    requires t <= |f| && forall u :: t <= u < |f| ==> StageRows(wa, n, f, u, c, w)
    ensures TwiddleTable(wa, n, f[t..], Product(f[..t]), true, c, w)
    decreases |f| - t
  {
    hide TwiddlesFor, Product;
    if t < |f| {
      TableFromRows(wa, n, f, t + 1, c, w);
      assert f[t..][1..] == f[t + 1..];
      assert f[..t + 1] == f[..t] + [f[t]];
      ProductAppend(f[..t], f[t]);
      assert StageRows(wa, n, f, t, c, w);
    }
  }

  /** One row of a stage: the powers of w^ld, from 0 to ido - 1. */
  ghost predicate Row(wa: seq<C>, base: nat, ld: nat, ido: nat, w: C) {
    base + ido <= |wa| && forall i: nat :: i < ido ==> RowAt(wa, base, ld, w, i)
  }

  ghost predicate RowAt(wa: seq<C>, base: nat, ld: nat, w: C, i: nat) {
    base + i < |wa| && wa[base + i] == Pow(w, i * ld)
  }

  lemma RowKept(wa: seq<C>, wa': seq<C>, base: nat, ld: nat, ido: nat, w: C)
    requires Row(wa, base, ld, ido, w) && |wa'| == |wa| && wa'[..base + ido] == wa[..base + ido]
    ensures Row(wa', base, ld, ido, w)
  {
    hide Pow;
    forall i: nat | i < ido ensures RowAt(wa', base, ld, w, i) {
      assert RowAt(wa, base, ld, w, i);
      assert wa'[base + i] == wa'[..base + ido][base + i];
    }
  }

  /** The rows q = 1 .. ip - 1 of a pass, with ld = q l1, are what the pass asks for. */
  lemma RowsServePass(s: Pass, wa: seq<C>, iw: nat)
    requires s.pos && forall q: nat :: 0 < q < s.ip ==> Row(wa, iw + (q - 1) * s.ido, q * s.l1, s.ido, s.v)
    ensures TwiddlesFor(s, wa, iw)
  {
    hide Pow, Row, TwiddleIs;
    forall q: nat, i: nat ensures TwiddleIs(s, wa, iw, q, i) {
      if 0 < q < s.ip && i < s.ido {
        EntryServes(s, wa, iw, q, i);
      } else {
        NoEntry(s, wa, iw, q, i);
      }
    }
  }

  lemma NoEntry(s: Pass, wa: seq<C>, iw: nat, q: nat, i: nat)
    requires !(0 < q < s.ip && i < s.ido)
    ensures TwiddleIs(s, wa, iw, q, i)
  {
  }

  lemma EntryServes(s: Pass, wa: seq<C>, iw: nat, q: nat, i: nat)
    requires s.pos && 0 < q < s.ip && i < s.ido && Row(wa, iw + (q - 1) * s.ido, q * s.l1, s.ido, s.v)
    ensures TwiddleIs(s, wa, iw, q, i)
  {
    hide Pow;
    assert RowAt(wa, iw + (q - 1) * s.ido, q * s.l1, s.v, i);
    PowMul(s.v, s.l1, q);
    PowMul(s.v, s.l1 * q, i);
    Arith.MulComm(s.l1, q);
    Arith.MulComm(q * s.l1, i);
  }

  /** Writes one row: ones first, then the powers; the last one is where the next row will start. */
  method WriteRow(wa: array<C>, i0: nat, ld: nat, ido: nat, ip: nat, w: C) returns (i: nat)
    requires i0 + ido < wa.Length
    modifies wa
    ensures i == i0 + ido && wa[..i0] == old(wa[..i0])
    ensures ip <= 5 && ido > 0 ==> Row(wa[..], i0, ld, ido, w)
  {
    hide Pow;
    i := i0;
    wa[i] := ONE;
    PowZero(w, ld);
    for ii := 0 to ido
      invariant i == i0 + ii
      invariant wa[..i0] == old(wa[..i0])
      invariant forall t: nat :: t <= ii ==> wa[i0 + t] == Pow(w, t * ld)
    {
      i := i + 1;
      wa[i] := Pow(w, (ii + 1) * ld);
    }
    if ip > 5 {
      wa[i0] := wa[i];
    } else {
      forall t: nat | t < ido ensures RowAt(wa[..], i0, ld, w, t) {
      }
    }
  }

  lemma PowZero(w: C, ld: nat)
    ensures Pow(w, 0 * ld) == ONE
  {
  }

  /** The rows of one stage. */
  method WriteStage(wa: array<C>, i0: nat, l1: nat, ido: nat, ip: nat, w: C) returns (i: nat)
    requires ip > 0 && ido > 0 && i0 + (ip - 1) * ido < wa.Length
    modifies wa
    ensures i == i0 + (ip - 1) * ido && wa[..i0] == old(wa[..i0])
    ensures ip <= 5 ==> forall q: nat :: 0 < q < ip ==> Row(wa[..], i0 + (q - 1) * ido, q * l1, ido, w)
  {
    hide Row;
    i := i0;
    var ld := 0;
    for j := 0 to ip - 1
      invariant i == i0 + j * ido && ld == j * l1
      invariant wa[..i0] == old(wa[..i0])
      invariant ip <= 5 ==> forall q: nat :: 0 < q <= j ==> Row(wa[..], i0 + (q - 1) * ido, q * l1, ido, w)
    {
      RowRoom(ip, ido, j);
      ld := ld + l1;
      ghost var before := wa[..];
      NextMultiple(j, l1);
      NextMultiple(j, ido);
      var i' := WriteRow(wa, i, ld, ido, ip, w);
      if ip <= 5 {
        RowsEarlier(before, wa[..], i0, l1, ido, w, j, i);
      }
      assert wa[..i0] == wa[..i][..i0];
      i := i';
    }
  }

  lemma RowsEarlier(wa: seq<C>, wa': seq<C>, i0: nat, l1: nat, ido: nat, w: C, j: nat, i: nat)
    requires |wa'| == |wa| && i == i0 + j * ido <= |wa| && wa'[..i] == wa[..i]
    requires forall q: nat :: 0 < q <= j ==> Row(wa, i0 + (q - 1) * ido, q * l1, ido, w)
    ensures forall q: nat :: 0 < q <= j ==> Row(wa', i0 + (q - 1) * ido, q * l1, ido, w)
  {
    hide Row;
    forall q: nat | 0 < q <= j ensures Row(wa', i0 + (q - 1) * ido, q * l1, ido, w) {
      RowRoom(j + 1, ido, q - 1);
      NextMultiple(q - 1, ido);
      RowEarlier(wa, wa', i0 + (q - 1) * ido, q * l1, ido, w, i);
    }
  }

  lemma RowEarlier(wa: seq<C>, wa': seq<C>, base: nat, ld: nat, ido: nat, w: C, k: nat)
    requires Row(wa, base, ld, ido, w) && |wa'| == |wa| && base + ido <= k <= |wa| && wa'[..k] == wa[..k]
    ensures Row(wa', base, ld, ido, w)
  {
    assert wa'[..base + ido] == wa'[..k][..base + ido] && wa[..base + ido] == wa[..k][..base + ido];
    RowKept(wa, wa', base, ld, ido, w);
  }

  lemma NextMultiple(j: nat, a: nat)
    ensures (j + 1) * a == j * a + a
  {
  }

  lemma RowRoom(ip: nat, ido: nat, j: nat)
    requires j + 1 < ip
    ensures j * ido + ido <= (ip - 1) * ido
  {
    BlockFits(ip - 1, ido, j);
    NextMultiple(j, ido);
  }

  // ----- the whole set-up

  /** Where stage t starts: l1 blocks, and the rest still to split. */
  lemma StageStart(n: nat, f: seq<nat>, t: nat) returns (ido: nat)
    requires n > 0 && Product(f) == n && t < |f| && forall j :: 0 <= j < |f| ==> f[j] >= 2
    ensures ido == Product(f[t + 1..]) > 0 && Product(f[t..]) == f[t] * ido
    ensures Product(f[..t + 1]) == Product(f[..t]) * f[t] > 0 && n / Product(f[..t + 1]) == ido
    ensures n - Product(f[t..]) + (f[t] - 1) * ido == n - ido >= 0
    ensures Product(f[t..]) <= n
  {
    hide Product;
    ido := Product(f[t + 1..]);
    assert f[t..] == [f[t]] + f[t + 1..] && f[..t + 1] == f[..t] + [f[t]] && f == f[..t] + f[t..] == f[..t + 1] + f[t + 1..];
    ProductAppend(f[..t], f[t]);
    ProductConcat([f[t]], f[t + 1..]);
    ProductSingle(f[t]);
    ProductConcat(f[..t], f[t..]);
    ProductConcat(f[..t + 1], f[t + 1..]);
    FactorsPositive(f[..t + 1]);
    FactorsPositive(f[t + 1..]);
    FactorsPositive(f[..t]);
    Arith.DivUnique(n, Product(f[..t + 1]), ido, 0);
    PieceSize(f[t], ido);
    Arith.MulComm(Product(f[..t]), Product(f[t..]));
    Arith.MulGe(Product(f[t..]), Product(f[..t]));
  }

  lemma ProductSingle(k: nat)
    ensures Product([k]) == k
  {
    assert [k][1..] == [];
    assert Product([k]) == k * Product([]);
  }

  lemma {:induction false} ProductConcat(f: seq<nat>, g: seq<nat>)
    ensures Product(f + g) == Product(f) * Product(g)
  {
    if f == [] {
      assert f + g == g;
    } else {
      assert (f + g)[1..] == f[1..] + g;
      ProductConcat(f[1..], g);
      Arith.MulAssoc(f[0], Product(f[1..]), Product(g));
    }
  }

  lemma {:induction false} FactorsPositive(f: seq<nat>)
    requires forall j :: 0 <= j < |f| ==> f[j] >= 2
    ensures Product(f) > 0
  {
    if f != [] {
      FactorsPositive(f[1..]);
      Arith.MulGe(f[0], Product(f[1..]));
    }
  }

  lemma RowsKept(wa: seq<C>, wa': seq<C>, n: nat, f: seq<nat>, t: nat, k: nat, c: Consts, w: C)
    requires StageRows(wa, n, f, t, c, w) && t < |f| && |wa'| == |wa| && k <= |wa| && wa'[..k] == wa[..k]
    requires n - Product(f[t..]) + (f[t] - 1) * Product(f[t + 1..]) <= k && f[t] >= 2
    ensures StageRows(wa', n, f, t, c, w)
  {
    hide Pow, Product;
    var s := Pass(f[t], Product(f[..t]), Product(f[t + 1..]), true, c, w);
    var iw := n - Product(f[t..]);
    forall q: nat, i: nat ensures TwiddleIs(s, wa', iw, q, i) {
      assert TwiddleIs(s, wa, iw, q, i);
      if 0 < q < s.ip && i < s.ido {
        TwiddleBound(s.ip, s.ido, iw, q, i);
        assert wa'[TwiddleAt(s.ido, iw, q, i)] == wa'[..k][TwiddleAt(s.ido, iw, q, i)];
      }
    }
  }

  lemma RemainderShrinks(f: seq<nat>, t: nat, u: nat)
    requires t <= u <= |f| && forall j :: 0 <= j < |f| ==> f[j] >= 2
    ensures 0 < Product(f[u..]) <= Product(f[t..])
  {
    hide Product;
    assert f[t..] == f[t..u] + f[u..];
    ProductConcat(f[t..u], f[u..]);
    FactorsPositive(f[t..u]);
    FactorsPositive(f[u..]);
    Arith.MulComm(Product(f[t..u]), Product(f[u..]));
    Arith.MulGe(Product(f[u..]), Product(f[t..u]));
  }

  ghost predicate AllSmall(f: seq<nat>) {
    forall j :: 0 <= j < |f| ==> f[j] <= 5
  }

  /** The first t stages have their rows, if all factors have passes. */
  ghost predicate StagesDone(wa: seq<C>, n: nat, f: seq<nat>, t: nat, c: Consts, w: C) {
    AllSmall(f) ==> forall u: nat :: u < t ==> StageRows(wa, n, f, u, c, w)
  }

  /** One turn of the outer loop. */
  method MakeStage(n: nat, ghost f: seq<nat>, ghost t: nat, ip: nat, l1: nat, i: nat, wa: array<C>, ghost c: Consts, w: C)
    returns (l2: nat, i': nat)
    requires wa.Length == n > 0 && Product(f) == n && (forall j :: 0 <= j < |f| ==> f[j] >= 2) && t < |f| && ip == f[t]
    requires l1 == Product(f[..t]) && Product(f[t..]) <= n && i == n - Product(f[t..])
    requires StagesDone(wa[..], n, f, t, c, w)
    modifies wa
    ensures l2 == Product(f[..t + 1]) && Product(f[t + 1..]) <= n && i' == n - Product(f[t + 1..])
    ensures StagesDone(wa[..], n, f, t + 1, c, w)
  {
    hide Product, StageRows, Row;
    ghost var rest := StageStart(n, f, t);
    l2 := l1 * ip;
    var ido := n / l2;
    ghost var before := wa[..];
    i' := WriteStage(wa, i, l1, ido, ip, w);
    if AllSmall(f) {
      StageDone(wa[..], n, f, t, c, w);
      StagesKept(before, wa[..], n, f, t, i, c, w);
    }
  }

  /** The twiddle part of `cffti1`; every index stays below n. */
  method MakeTwiddles(n: nat, ifac: array<nat>, wa: array<C>, ghost c: Consts, w: C)
    requires ifac.Length == 15 && ifac[1] <= 13 && wa.Length == n > 0
    requires var f := ifac[2..2 + ifac[1]]; Product(f) == n && forall j :: 0 <= j < |f| ==> f[j] >= 2
    modifies wa
    ensures var f := ifac[2..2 + ifac[1]];
            (forall j :: 0 <= j < |f| ==> f[j] <= 5) ==> TwiddleTable(wa[..], n, f, 1, true, c, w)
  {
    hide Product, StagesDone, AllSmall, TwiddleTable;
    ghost var f := ifac[2..2 + ifac[1]];
    var nf: nat, i: nat, l1: nat := ifac[1], 0, 1;
    assert wa as object != ifac;
    NoStages(wa[..], n, f, c, w);
    for k1 := 1 to nf + 1
      invariant f == ifac[2..2 + nf] && l1 == Product(f[..k1 - 1])
      invariant Product(f[k1 - 1..]) <= n && i == n - Product(f[k1 - 1..])
      invariant StagesDone(wa[..], n, f, k1 - 1, c, w)
    {
      l1, i := MakeStage(n, f, k1 - 1, ifac[k1 + 1], l1, i, wa, c, w);
    }
    AllStages(wa[..], n, f, c, w);
  }

  lemma NoStages(wa: seq<C>, n: nat, f: seq<nat>, c: Consts, w: C)
    ensures Product(f[..0]) == 1 && f[0..] == f && StagesDone(wa, n, f, 0, c, w)
  {
    assert f[..0] == [];
  }

  lemma AllStages(wa: seq<C>, n: nat, f: seq<nat>, c: Consts, w: C)
    requires StagesDone(wa, n, f, |f|, c, w)
    ensures (forall j :: 0 <= j < |f| ==> f[j] <= 5) ==> TwiddleTable(wa, n, f, 1, true, c, w)
  {
    if AllSmall(f) {
      NoStages(wa, n, f, c, w);
      hide Product, StageRows;
      TableFromRows(wa, n, f, 0, c, w);
    }
  }

  /** Stages before t keep their rows. */
  lemma StagesKept(wa: seq<C>, wa': seq<C>, n: nat, f: seq<nat>, t: nat, k: nat, c: Consts, w: C)
    requires n > 0 && Product(f) == n && t < |f| && forall j :: 0 <= j < |f| ==> f[j] >= 2
    requires |wa'| == |wa| && k <= |wa| && wa'[..k] == wa[..k] && k == n - Product(f[t..])
    requires forall u: nat :: u < t ==> StageRows(wa, n, f, u, c, w)
    ensures forall u: nat :: u < t ==> StageRows(wa', n, f, u, c, w)
  {
    hide *;
    forall u: nat | u < t ensures StageRows(wa', n, f, u, c, w) {
      var ido := StageStart(n, f, u);
      RemainderShrinks(f, u + 1, t);
      assert StageRows(wa, n, f, u, c, w);
      RowsKept(wa, wa', n, f, u, k, c, w);
    }
  }

  lemma StageDone(wa: seq<C>, n: nat, f: seq<nat>, t: nat, c: Consts, w: C)
    requires t < |f| && Product(f[t..]) <= n
    requires forall q: nat :: 0 < q < f[t] ==>
               Row(wa, n - Product(f[t..]) + (q - 1) * Product(f[t + 1..]), q * Product(f[..t]), Product(f[t + 1..]), w)
    ensures StageRows(wa, n, f, t, c, w)
  {
    hide Row, Product, TwiddlesFor;
    RowsServePass(Pass(f[t], Product(f[..t]), Product(f[t + 1..]), true, c, w), wa, n - Product(f[t..]));
  }
}
