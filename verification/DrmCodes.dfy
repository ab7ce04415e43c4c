/** The codes of drm_dec.c's four trees, written out. */
module DrmCodes {
  import opened Words
  import opened DrmTree

  /** A code is written as a decimal number: a one, then its bits. */
  function Digits(code: nat): Bits {
    if code <= 1 then [] else Digits(code / 10) + [code % 10 == 1]
  }

  /** The entry that a code leads to. */
  function Reached(t: Tree, code: nat): int {
    if code <= 1 then 0
    else
      var i := Reached(t, code / 10);
      if 0 <= i < t.Rows() then t.Entry(i, code % 10 == 1) else 99
  }

  predicate CodeIs(t: Tree, v: int, code: nat) {
    IsSymbol(t, v) && Code(t, v) == Digits(code)
  }

  lemma ReachedStep(t: Tree, code: nat)
    requires code > 1 && Stands(t, Reached(t, code))
    ensures var i := Reached(t, code / 10);
            && 0 <= i < t.Rows() && t.Place(Reached(t, code)) == (i, code % 10 == 1)
            && (i == 0 <==> code / 10 <= 1)
  {
    hide t.Entry, t.Place;
    var i := Reached(t, code / 10);
    if 0 <= i < t.Rows() {
      EntryStands(t, i, code % 10 == 1);
    }
    if code / 10 > 1 {
      var j := Reached(t, code / 10 / 10);
      if 0 <= j < t.Rows() {
        EntryStands(t, j, code / 10 % 10 == 1);
      }
    }
  }

  lemma {:induction false} PathIsDigits(t: Tree, code: nat)
    requires code > 1 && Stands(t, Reached(t, code))
    ensures Path(t, Reached(t, code)) == Digits(code)
  {
    hide t.Entry, t.Place, Path, Reached;
    ReachedStep(t, code);
    PathStep(t, Reached(t, code));
    if code / 10 > 1 {
      PathIsDigits(t, code / 10);
    }
  }

  lemma Root(t: Tree)
    ensures Reached(t, 1) == 0
  {
  }

  /** A row of a tree, as its initialiser lists them. */
  predicate RowIs(t: Tree, i: nat, e: int, f: int) {
    i < t.Rows() && t.Entry(i, false) == e && t.Entry(i, true) == f
  }

  /** Both branches of a row: a row further down, or the code of a symbol. */
  lemma Row(t: Tree, code: nat, i: nat, e: int, f: int)
    requires code >= 1 && Reached(t, code) == i && RowIs(t, i, e, f)
    ensures e < 0 ==> CodeIs(t, e + 15, 10 * code)
    ensures e >= 0 ==> Reached(t, 10 * code) == e
    ensures f < 0 ==> CodeIs(t, f + 15, 10 * code + 1)
    ensures f >= 0 ==> Reached(t, 10 * code + 1) == f
  {
    Branch(t, code, i, false);
    Branch(t, code, i, true);
  }

  lemma Branch(t: Tree, code: nat, i: nat, b: bool)
    requires code >= 1 && i < t.Rows() && Reached(t, code) == i
    ensures var next := 10 * code + if b then 1 else 0;
            if t.Entry(i, b) < 0 then CodeIs(t, t.Entry(i, b) + 15, next) else Reached(t, next) == t.Entry(i, b)
  {
    hide t.Entry, t.Place, Path, Digits;
    var next := 10 * code + if b then 1 else 0;
    assert next / 10 == code && (next % 10 == 1 <==> b);
    EntryStands(t, i, b);
    if t.Entry(i, b) < 0 {
      CodeIsPath(t, t.Entry(i, b) + 15);
      PathIsDigits(t, next);
    }
  }

  lemma FSaRows()
    ensures RowIs(FSa, 0, -15, 1) && RowIs(FSa, 1, 2, 3) && RowIs(FSa, 2, -8, 4)
    ensures RowIs(FSa, 3, 5, 6) && RowIs(FSa, 4, -14, -16) && RowIs(FSa, 5, -17, 7)
    ensures RowIs(FSa, 6, 8, 9) && RowIs(FSa, 7, -13, -18) && RowIs(FSa, 8, -12, 10)
    ensures RowIs(FSa, 9, 11, 12) && RowIs(FSa, 10, -11, -10) && RowIs(FSa, 11, -19, -20)
    ensures RowIs(FSa, 12, -9, 13) && RowIs(FSa, 13, -22, -21)
  {
  }

  /** `f_huffman_sa` */
  lemma FSaCodes()
    ensures CodeIs(FSa, -7, 1_1111110) && CodeIs(FSa, -6, 1_1111111) && CodeIs(FSa, -5, 1_111101)
    ensures CodeIs(FSa, -4, 1_111100) && CodeIs(FSa, -3, 1_11011) && CodeIs(FSa, -2, 1_1100)
    ensures CodeIs(FSa, -1, 1_1011) && CodeIs(FSa, 0, 1_0) && CodeIs(FSa, 1, 1_1010)
    ensures CodeIs(FSa, 2, 1_11010) && CodeIs(FSa, 3, 1_11100) && CodeIs(FSa, 4, 1_111010)
    ensures CodeIs(FSa, 5, 1_111011) && CodeIs(FSa, 6, 1_111110) && CodeIs(FSa, 7, 1_100)
  {
    hide *;
    Root(FSa);
    FSaRows();
    Row(FSa, 1, 0, -15, 1);
    Row(FSa, 1_1, 1, 2, 3);
    Row(FSa, 1_10, 2, -8, 4);
    Row(FSa, 1_11, 3, 5, 6);
    Row(FSa, 1_101, 4, -14, -16);
    Row(FSa, 1_110, 5, -17, 7);
    Row(FSa, 1_111, 6, 8, 9);
    Row(FSa, 1_1101, 7, -13, -18);
    Row(FSa, 1_1110, 8, -12, 10);
    Row(FSa, 1_1111, 9, 11, 12);
    Row(FSa, 1_11101, 10, -11, -10);
    Row(FSa, 1_11110, 11, -19, -20);
    Row(FSa, 1_11111, 12, -9, 13);
    Row(FSa, 1_111111, 13, -22, -21);
  }

  lemma TSaRows()
    ensures RowIs(TSa, 0, -15, 1) && RowIs(TSa, 1, 2, 3) && RowIs(TSa, 2, -16, -14)
    ensures RowIs(TSa, 3, 4, 5) && RowIs(TSa, 4, -17, -13) && RowIs(TSa, 5, 6, 7)
    ensures RowIs(TSa, 6, -18, -12) && RowIs(TSa, 7, 8, 9) && RowIs(TSa, 8, -19, -11)
    ensures RowIs(TSa, 9, 10, 11) && RowIs(TSa, 10, -20, -10) && RowIs(TSa, 11, -21, 12)
    ensures RowIs(TSa, 12, -22, 13) && RowIs(TSa, 13, -9, -8)
  {
  }

  /** `t_huffman_sa` */
  lemma TSaCodes()
    ensures CodeIs(TSa, -7, 1_11111110) && CodeIs(TSa, -6, 1_1111110) && CodeIs(TSa, -5, 1_1111100)
    ensures CodeIs(TSa, -4, 1_111100) && CodeIs(TSa, -3, 1_11100) && CodeIs(TSa, -2, 1_1100)
    ensures CodeIs(TSa, -1, 1_100) && CodeIs(TSa, 0, 1_0) && CodeIs(TSa, 1, 1_101)
    ensures CodeIs(TSa, 2, 1_1101) && CodeIs(TSa, 3, 1_11101) && CodeIs(TSa, 4, 1_111101)
    ensures CodeIs(TSa, 5, 1_1111101) && CodeIs(TSa, 6, 1_111111110) && CodeIs(TSa, 7, 1_111111111)
  {
    hide *;
    Root(TSa);
    TSaRows();
    Row(TSa, 1, 0, -15, 1);
    Row(TSa, 1_1, 1, 2, 3);
    Row(TSa, 1_10, 2, -16, -14);
    Row(TSa, 1_11, 3, 4, 5);
    Row(TSa, 1_110, 4, -17, -13);
    Row(TSa, 1_111, 5, 6, 7);
    Row(TSa, 1_1110, 6, -18, -12);
    Row(TSa, 1_1111, 7, 8, 9);
    Row(TSa, 1_11110, 8, -19, -11);
    Row(TSa, 1_11111, 9, 10, 11);
    Row(TSa, 1_111110, 10, -20, -10);
    Row(TSa, 1_111111, 11, -21, 12);
    Row(TSa, 1_1111111, 12, -22, 13);
    Row(TSa, 1_11111111, 13, -9, -8);
  }

  lemma FPanRows()
    ensures RowIs(FPan, 0, -15, 1) && RowIs(FPan, 1, -16, 2) && RowIs(FPan, 2, -14, 3)
    ensures RowIs(FPan, 3, 4, 5) && RowIs(FPan, 4, -17, -13) && RowIs(FPan, 5, 6, 7)
    ensures RowIs(FPan, 6, -18, -12) && RowIs(FPan, 7, 8, 9) && RowIs(FPan, 8, -19, -11)
    ensures RowIs(FPan, 9, 10, 11) && RowIs(FPan, 10, -20, -10) && RowIs(FPan, 11, 12, 13)
    ensures RowIs(FPan, 12, -21, -9) && RowIs(FPan, 13, -22, 14)
  {
  }

  lemma FPanDeepRows()
    ensures RowIs(FPan, 14, -8, 15) && RowIs(FPan, 15, 16, 17) && RowIs(FPan, 16, -23, -7)
    ensures RowIs(FPan, 17, 18, 19) && RowIs(FPan, 18, -25, 20) && RowIs(FPan, 19, 21, 22)
    ensures RowIs(FPan, 20, -24, -6) && RowIs(FPan, 21, -5, 23) && RowIs(FPan, 22, 24, 25)
    ensures RowIs(FPan, 23, -28, -26) && RowIs(FPan, 24, -4, -2) && RowIs(FPan, 25, 26, 27)
    ensures RowIs(FPan, 26, -29, -27) && RowIs(FPan, 27, -3, -1)
  {
  }

  /** `f_huffman_pan` */
  lemma FPanCodes()
    ensures CodeIs(FPan, -14, 1_1111111111111100) && CodeIs(FPan, -13, 1_111111111111010)
    ensures CodeIs(FPan, -12, 1_1111111111111101) && CodeIs(FPan, -11, 1_111111111111011)
    ensures CodeIs(FPan, -10, 1_1111111111100) && CodeIs(FPan, -9, 1_11111111111010)
    ensures CodeIs(FPan, -8, 1_111111111100) && CodeIs(FPan, -7, 1_111111110)
    ensures CodeIs(FPan, -6, 1_111111100) && CodeIs(FPan, -5, 1_11111100)
    ensures CodeIs(FPan, -4, 1_1111100) && CodeIs(FPan, -3, 1_111100)
    ensures CodeIs(FPan, -2, 1_11100) && CodeIs(FPan, -1, 1_10)
    ensures CodeIs(FPan, 0, 1_0) && CodeIs(FPan, 1, 1_110)
    ensures CodeIs(FPan, 2, 1_11101) && CodeIs(FPan, 3, 1_111101)
    ensures CodeIs(FPan, 4, 1_1111101) && CodeIs(FPan, 5, 1_11111101)
    ensures CodeIs(FPan, 6, 1_111111101) && CodeIs(FPan, 7, 1_1111111110)
    ensures CodeIs(FPan, 8, 1_111111111101) && CodeIs(FPan, 9, 1_11111111111011)
    ensures CodeIs(FPan, 10, 1_11111111111100) && CodeIs(FPan, 11, 1_111111111111100)
    ensures CodeIs(FPan, 12, 1_1111111111111110) && CodeIs(FPan, 13, 1_111111111111101)
    ensures CodeIs(FPan, 14, 1_1111111111111111)
  {
    hide *;
    Root(FPan);
    FPanRows();
    FPanDeepRows();
    Row(FPan, 1, 0, -15, 1);
    Row(FPan, 1_1, 1, -16, 2);
    Row(FPan, 1_11, 2, -14, 3);
    Row(FPan, 1_111, 3, 4, 5);
    Row(FPan, 1_1110, 4, -17, -13);
    Row(FPan, 1_1111, 5, 6, 7);
    Row(FPan, 1_11110, 6, -18, -12);
    Row(FPan, 1_11111, 7, 8, 9);
    Row(FPan, 1_111110, 8, -19, -11);
    Row(FPan, 1_111111, 9, 10, 11);
    Row(FPan, 1_1111110, 10, -20, -10);
    Row(FPan, 1_1111111, 11, 12, 13);
    Row(FPan, 1_11111110, 12, -21, -9);
    Row(FPan, 1_11111111, 13, -22, 14);
    Row(FPan, 1_111111111, 14, -8, 15);
    Row(FPan, 1_1111111111, 15, 16, 17);
    Row(FPan, 1_11111111110, 16, -23, -7);
    Row(FPan, 1_11111111111, 17, 18, 19);
    Row(FPan, 1_111111111110, 18, -25, 20);
    Row(FPan, 1_111111111111, 19, 21, 22);
    Row(FPan, 1_1111111111101, 20, -24, -6);
    Row(FPan, 1_1111111111110, 21, -5, 23);
    Row(FPan, 1_1111111111111, 22, 24, 25);
    Row(FPan, 1_11111111111101, 23, -28, -26);
    Row(FPan, 1_11111111111110, 24, -4, -2);
    Row(FPan, 1_11111111111111, 25, 26, 27);
    Row(FPan, 1_111111111111110, 26, -29, -27);
    Row(FPan, 1_111111111111111, 27, -3, -1);
  }

  lemma TPanRows()
    ensures RowIs(TPan, 0, -15, 1) && RowIs(TPan, 1, -16, 2) && RowIs(TPan, 2, -14, 3)
    ensures RowIs(TPan, 3, -17, 4) && RowIs(TPan, 4, -13, 5) && RowIs(TPan, 5, -18, 6)
    ensures RowIs(TPan, 6, -12, 7) && RowIs(TPan, 7, -19, 8) && RowIs(TPan, 8, -11, 9)
    ensures RowIs(TPan, 9, 10, 11) && RowIs(TPan, 10, -20, -10) && RowIs(TPan, 11, 12, 13)
    ensures RowIs(TPan, 12, -21, -9) && RowIs(TPan, 13, 14, 15)
  {
  }

  lemma TPanDeepRows()
    ensures RowIs(TPan, 14, -22, -8) && RowIs(TPan, 15, 16, 17) && RowIs(TPan, 16, -23, -7)
    ensures RowIs(TPan, 17, 18, 19) && RowIs(TPan, 18, -25, -5) && RowIs(TPan, 19, 20, 21)
    ensures RowIs(TPan, 20, -24, -6) && RowIs(TPan, 21, 22, 23) && RowIs(TPan, 22, 24, 25)
    ensures RowIs(TPan, 23, 26, 27) && RowIs(TPan, 24, -29, -28) && RowIs(TPan, 25, -27, -26)
    ensures RowIs(TPan, 26, -4, -3) && RowIs(TPan, 27, -2, -1)
  {
  }

  /** `t_huffman_pan` */
  lemma TPanCodes()
    ensures CodeIs(TPan, -14, 1_111111111111111000) && CodeIs(TPan, -13, 1_111111111111111001)
    ensures CodeIs(TPan, -12, 1_111111111111111010) && CodeIs(TPan, -11, 1_111111111111111011)
    ensures CodeIs(TPan, -10, 1_111111111111100) && CodeIs(TPan, -9, 1_1111111111111100)
    ensures CodeIs(TPan, -8, 1_11111111111100) && CodeIs(TPan, -7, 1_1111111111100)
    ensures CodeIs(TPan, -6, 1_111111111100) && CodeIs(TPan, -5, 1_11111111100)
    ensures CodeIs(TPan, -4, 1_11111110) && CodeIs(TPan, -3, 1_111110)
    ensures CodeIs(TPan, -2, 1_1110) && CodeIs(TPan, -1, 1_10)
    ensures CodeIs(TPan, 0, 1_0) && CodeIs(TPan, 1, 1_110)
    ensures CodeIs(TPan, 2, 1_11110) && CodeIs(TPan, 3, 1_1111110)
    ensures CodeIs(TPan, 4, 1_111111110) && CodeIs(TPan, 5, 1_11111111101)
    ensures CodeIs(TPan, 6, 1_111111111101) && CodeIs(TPan, 7, 1_1111111111101)
    ensures CodeIs(TPan, 8, 1_11111111111101) && CodeIs(TPan, 9, 1_1111111111111101)
    ensures CodeIs(TPan, 10, 1_111111111111101) && CodeIs(TPan, 11, 1_111111111111111100)
    ensures CodeIs(TPan, 12, 1_111111111111111101) && CodeIs(TPan, 13, 1_111111111111111110)
    ensures CodeIs(TPan, 14, 1_111111111111111111)
  {
    hide *;
    Root(TPan);
    TPanRows();
    TPanDeepRows();
    Row(TPan, 1, 0, -15, 1);
    Row(TPan, 1_1, 1, -16, 2);
    Row(TPan, 1_11, 2, -14, 3);
    Row(TPan, 1_111, 3, -17, 4);
    Row(TPan, 1_1111, 4, -13, 5);
    Row(TPan, 1_11111, 5, -18, 6);
    Row(TPan, 1_111111, 6, -12, 7);
    Row(TPan, 1_1111111, 7, -19, 8);
    Row(TPan, 1_11111111, 8, -11, 9);
    Row(TPan, 1_111111111, 9, 10, 11);
    Row(TPan, 1_1111111110, 10, -20, -10);
    Row(TPan, 1_1111111111, 11, 12, 13);
    Row(TPan, 1_11111111110, 12, -21, -9);
    Row(TPan, 1_11111111111, 13, 14, 15);
    Row(TPan, 1_111111111110, 14, -22, -8);
    Row(TPan, 1_111111111111, 15, 16, 17);
    Row(TPan, 1_1111111111110, 16, -23, -7);
    Row(TPan, 1_1111111111111, 17, 18, 19);
    Row(TPan, 1_11111111111110, 18, -25, -5);
    Row(TPan, 1_11111111111111, 19, 20, 21);
    Row(TPan, 1_111111111111110, 20, -24, -6);
    Row(TPan, 1_111111111111111, 21, 22, 23);
    Row(TPan, 1_1111111111111110, 22, 24, 25);
    Row(TPan, 1_1111111111111111, 23, 26, 27);
    Row(TPan, 1_11111111111111100, 24, -29, -28);
    Row(TPan, 1_11111111111111101, 25, -27, -26);
    Row(TPan, 1_11111111111111110, 26, -4, -3);
    Row(TPan, 1_11111111111111111, 27, -2, -1);
  }
}
