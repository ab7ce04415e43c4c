/** drm_dec.c: the four Huffman trees of the parametric stereo data, and their walker. */
module DrmTree {
  import opened Words
  import opened BitReader

  /** `f_huffman_sa`, `t_huffman_sa`, `f_huffman_pan`, `t_huffman_pan` */
  datatype Tree = FSa | TSa | FPan | TPan
  {
    predicate Pan() { FPan? || TPan? }

    /** The number of rows. */
    function Rows(): nat { if Pan() then 28 else 14 }

    /** Symbols run from -Top to Top. */
    function Top(): nat { if Pan() then 14 else 7 }

    /** `huff[index][bit]`: a row further down, or a symbol less 15. */
    function Entry(index: nat, bit: bool): int
      requires index < Rows()
    {
      match this
      case FSa => FSaRow(index, bit)
      case TSa => TSaRow(index, bit)
      case FPan => if index < 14 then FPanRow(index, bit) else FPanDeep(index, bit)
      case TPan => if index < 14 then TPanRow(index, bit) else TPanDeep(index, bit)
    }

    /** The only place where an entry stands. */
    function Place(entry: int): (nat, bool)
    {
      match this
      case FSa => if entry < 0 then FSaLeaf(entry) else FSaParent(entry)
      case TSa => if entry < 0 then TSaLeaf(entry) else TSaParent(entry)
      case FPan => if entry < 0 then FPanLeaf(entry) else FPanParent(entry)
      case TPan => if entry < 0 then TPanLeaf(entry) else TPanParent(entry)
    }
  }

  function FSaRow(i: nat, b: bool): int {
    match i
    case 0 => if b then 1 else -15 case 1 => if b then 3 else 2
    case 2 => if b then 4 else -8 case 3 => if b then 6 else 5
    case 4 => if b then -16 else -14 case 5 => if b then 7 else -17
    case 6 => if b then 9 else 8 case 7 => if b then -18 else -13
    case 8 => if b then 10 else -12 case 9 => if b then 12 else 11
    case 10 => if b then -10 else -11 case 11 => if b then -20 else -19
    case 12 => if b then 13 else -9 case 13 => if b then -21 else -22
    case _ => -1
  }

  function FSaLeaf(e: int): (nat, bool) {
    match e
    case -22 => (13, false) case -21 => (13, true) case -20 => (11, true) case -19 => (11, false)
    case -18 => (7, true) case -17 => (5, false) case -16 => (4, true) case -15 => (0, false)
    case -14 => (4, false) case -13 => (7, false) case -12 => (8, false) case -11 => (10, false)
    case -10 => (10, true) case -9 => (12, false) case -8 => (2, false)
    case _ => (0, false)
  }

  function FSaParent(e: int): (nat, bool) {
    match e
    case 1 => (0, true) case 2 => (1, false) case 3 => (1, true) case 4 => (2, true)
    case 5 => (3, false) case 6 => (3, true) case 7 => (5, true) case 8 => (6, false)
    case 9 => (6, true) case 10 => (8, true) case 11 => (9, false) case 12 => (9, true)
    case 13 => (12, true)
    case _ => (0, false)
  }

  function TSaRow(i: nat, b: bool): int {
    match i
    case 0 => if b then 1 else -15 case 1 => if b then 3 else 2
    case 2 => if b then -14 else -16 case 3 => if b then 5 else 4
    case 4 => if b then -13 else -17 case 5 => if b then 7 else 6
    case 6 => if b then -12 else -18 case 7 => if b then 9 else 8
    case 8 => if b then -11 else -19 case 9 => if b then 11 else 10
    case 10 => if b then -10 else -20 case 11 => if b then 12 else -21
    case 12 => if b then 13 else -22 case 13 => if b then -8 else -9
    case _ => -1
  }

  function TSaLeaf(e: int): (nat, bool) {
    match e
    case -22 => (12, false) case -21 => (11, false) case -20 => (10, false) case -19 => (8, false)
    case -18 => (6, false) case -17 => (4, false) case -16 => (2, false) case -15 => (0, false)
    case -14 => (2, true) case -13 => (4, true) case -12 => (6, true) case -11 => (8, true)
    case -10 => (10, true) case -9 => (13, false) case -8 => (13, true)
    case _ => (0, false)
  }

  function TSaParent(e: int): (nat, bool) {
    match e
    case 1 => (0, true) case 2 => (1, false) case 3 => (1, true) case 4 => (3, false)
    case 5 => (3, true) case 6 => (5, false) case 7 => (5, true) case 8 => (7, false)
    case 9 => (7, true) case 10 => (9, false) case 11 => (9, true) case 12 => (11, true)
    case 13 => (12, true)
    case _ => (0, false)
  }

  function FPanRow(i: nat, b: bool): int {
    match i
    case 0 => if b then 1 else -15 case 1 => if b then 2 else -16
    case 2 => if b then 3 else -14 case 3 => if b then 5 else 4
    case 4 => if b then -13 else -17 case 5 => if b then 7 else 6
    case 6 => if b then -12 else -18 case 7 => if b then 9 else 8
    case 8 => if b then -11 else -19 case 9 => if b then 11 else 10
    case 10 => if b then -10 else -20 case 11 => if b then 13 else 12
    case 12 => if b then -9 else -21 case 13 => if b then 14 else -22
    case _ => -1
  }

  function FPanDeep(i: nat, b: bool): int {
    match i
    case 14 => if b then 15 else -8 case 15 => if b then 17 else 16
    case 16 => if b then -7 else -23 case 17 => if b then 19 else 18
    case 18 => if b then 20 else -25 case 19 => if b then 22 else 21
    case 20 => if b then -6 else -24 case 21 => if b then 23 else -5
    case 22 => if b then 25 else 24 case 23 => if b then -26 else -28
    case 24 => if b then -2 else -4 case 25 => if b then 27 else 26
    case 26 => if b then -27 else -29 case 27 => if b then -1 else -3
    case _ => -1
  }

  function FPanLeaf(e: int): (nat, bool) {
    match e
    case -29 => (26, false) case -28 => (23, false) case -27 => (26, true) case -26 => (23, true)
    case -25 => (18, false) case -24 => (20, false) case -23 => (16, false) case -22 => (13, false)
    case -21 => (12, false) case -20 => (10, false) case -19 => (8, false) case -18 => (6, false)
    case -17 => (4, false) case -16 => (1, false) case -15 => (0, false) case -14 => (2, false)
    case -13 => (4, true) case -12 => (6, true) case -11 => (8, true) case -10 => (10, true)
    case -9 => (12, true) case -8 => (14, false) case -7 => (16, true) case -6 => (20, true)
    case -5 => (21, false) case -4 => (24, false) case -3 => (27, false) case -2 => (24, true)
    case -1 => (27, true)
    case _ => (0, false)
  }

  function FPanParent(e: int): (nat, bool) {
    match e
    case 1 => (0, true) case 2 => (1, true) case 3 => (2, true) case 4 => (3, false)
    case 5 => (3, true) case 6 => (5, false) case 7 => (5, true) case 8 => (7, false)
    case 9 => (7, true) case 10 => (9, false) case 11 => (9, true) case 12 => (11, false)
    case 13 => (11, true) case 14 => (13, true) case 15 => (14, true) case 16 => (15, false)
    case 17 => (15, true) case 18 => (17, false) case 19 => (17, true) case 20 => (18, true)
    case 21 => (19, false) case 22 => (19, true) case 23 => (21, true) case 24 => (22, false)
    case 25 => (22, true) case 26 => (25, false) case 27 => (25, true)
    case _ => (0, false)
  }

  function TPanRow(i: nat, b: bool): int {
    match i
    case 0 => if b then 1 else -15 case 1 => if b then 2 else -16
    case 2 => if b then 3 else -14 case 3 => if b then 4 else -17
    case 4 => if b then 5 else -13 case 5 => if b then 6 else -18
    case 6 => if b then 7 else -12 case 7 => if b then 8 else -19
    case 8 => if b then 9 else -11 case 9 => if b then 11 else 10
    case 10 => if b then -10 else -20 case 11 => if b then 13 else 12
    case 12 => if b then -9 else -21 case 13 => if b then 15 else 14
    case _ => -1
  }

  function TPanDeep(i: nat, b: bool): int {
    match i
    case 14 => if b then -8 else -22 case 15 => if b then 17 else 16
    case 16 => if b then -7 else -23 case 17 => if b then 19 else 18
    case 18 => if b then -5 else -25 case 19 => if b then 21 else 20
    case 20 => if b then -6 else -24 case 21 => if b then 23 else 22
    case 22 => if b then 25 else 24 case 23 => if b then 27 else 26
    case 24 => if b then -28 else -29 case 25 => if b then -26 else -27
    case 26 => if b then -3 else -4 case 27 => if b then -1 else -2
    case _ => -1
  }

  function TPanLeaf(e: int): (nat, bool) {
    match e
    case -29 => (24, false) case -28 => (24, true) case -27 => (25, false) case -26 => (25, true)
    case -25 => (18, false) case -24 => (20, false) case -23 => (16, false) case -22 => (14, false)
    case -21 => (12, false) case -20 => (10, false) case -19 => (7, false) case -18 => (5, false)
    case -17 => (3, false) case -16 => (1, false) case -15 => (0, false) case -14 => (2, false)
    case -13 => (4, false) case -12 => (6, false) case -11 => (8, false) case -10 => (10, true)
    case -9 => (12, true) case -8 => (14, true) case -7 => (16, true) case -6 => (20, true)
    case -5 => (18, true) case -4 => (26, false) case -3 => (26, true) case -2 => (27, false)
    case -1 => (27, true)
    case _ => (0, false)
  }

  function TPanParent(e: int): (nat, bool) {
    match e
    case 1 => (0, true) case 2 => (1, true) case 3 => (2, true) case 4 => (3, true)
    case 5 => (4, true) case 6 => (5, true) case 7 => (6, true) case 8 => (7, true)
    case 9 => (8, true) case 10 => (9, false) case 11 => (9, true) case 12 => (11, false)
    case 13 => (11, true) case 14 => (13, false) case 15 => (13, true) case 16 => (15, false)
    case 17 => (15, true) case 18 => (17, false) case 19 => (17, true) case 20 => (19, false)
    case 21 => (19, true) case 22 => (21, false) case 23 => (21, true) case 24 => (22, false)
    case 25 => (22, true) case 26 => (23, false) case 27 => (23, true)
    case _ => (0, false)
  }

  /** What stands in a tree: the rows but the first, and the symbols. */
  predicate Stands(t: Tree, entry: int) {
    0 < entry < t.Rows() || -15 - t.Top() <= entry <= -15 + t.Top()
  }

  /** Every entry is a row further down or a symbol in range, and stands nowhere else. */
  lemma EntryStands(t: Tree, i: nat, b: bool)
    requires i < t.Rows()
    ensures Stands(t, t.Entry(i, b)) && (t.Entry(i, b) > 0 ==> i < t.Entry(i, b))
    ensures t.Place(t.Entry(i, b)) == (i, b)
  {
  }

  lemma FSaPlace(e: int)
    requires Stands(FSa, e)
    ensures FSa.Place(e).0 < FSa.Rows() && FSa.Entry(FSa.Place(e).0, FSa.Place(e).1) == e
    ensures e > 0 ==> FSa.Place(e).0 < e
  {
  }

  lemma TSaPlace(e: int)
    requires Stands(TSa, e)
    ensures TSa.Place(e).0 < TSa.Rows() && TSa.Entry(TSa.Place(e).0, TSa.Place(e).1) == e
    ensures e > 0 ==> TSa.Place(e).0 < e
  {
  }

  lemma FPanPlace(e: int)
    requires Stands(FPan, e)
    ensures FPan.Place(e).0 < FPan.Rows() && FPan.Entry(FPan.Place(e).0, FPan.Place(e).1) == e
    ensures e > 0 ==> FPan.Place(e).0 < e
  {
    if e >= 0 {
      FPanParents(e);
    } else {
      FPanLeaves(e);
    }
    hide FPanLeaf, FPanParent, FPanRow, FPanDeep;
  }

  lemma FPanParents(e: int)
    requires 0 < e < 28
    ensures var (i, b) := FPanParent(e);
            i < e && (if i < 14 then FPanRow(i, b) else FPanDeep(i, b)) == e
  {
  }

  lemma FPanLeaves(e: int)
    requires -29 <= e < 0
    ensures var (i, b) := FPanLeaf(e);
            i < 28 && (if i < 14 then FPanRow(i, b) else FPanDeep(i, b)) == e
  {
  }

  lemma TPanPlace(e: int)
    requires Stands(TPan, e)
    ensures TPan.Place(e).0 < TPan.Rows() && TPan.Entry(TPan.Place(e).0, TPan.Place(e).1) == e
    ensures e > 0 ==> TPan.Place(e).0 < e
  {
    if e >= 0 {
      TPanParents(e);
    } else {
      TPanLeaves(e);
    }
    hide TPanLeaf, TPanParent, TPanRow, TPanDeep;
  }

  lemma TPanParents(e: int)
    requires 0 < e < 28
    ensures var (i, b) := TPanParent(e);
            i < e && (if i < 14 then TPanRow(i, b) else TPanDeep(i, b)) == e
  {
  }

  lemma TPanLeaves(e: int)
    requires -29 <= e < 0
    ensures var (i, b) := TPanLeaf(e);
            i < 28 && (if i < 14 then TPanRow(i, b) else TPanDeep(i, b)) == e
  {
  }

  /** Every row but the first and every symbol in range stands somewhere, a row behind its parent. */
  lemma PlaceHolds(t: Tree, e: int)
    requires Stands(t, e)
    ensures t.Place(e).0 < t.Rows() && t.Entry(t.Place(e).0, t.Place(e).1) == e
    ensures e > 0 ==> t.Place(e).0 < e
  {
    hide t.Entry, t.Place;
    match t
    case FSa => FSaPlace(e);
    case TSa => TSaPlace(e);
    case FPan => FPanPlace(e);
    case TPan => TPanPlace(e);
  }

  // ----- codes

  /** The bits that lead from the root to an entry. */
  function Path(t: Tree, e: int): Bits
    requires Stands(t, e)
    decreases if e > 0 then e else 100
  {
    PlaceHolds(t, e);
    var (i, b) := t.Place(e);
    (if i == 0 then [] else Path(t, i)) + [b]
  }

  predicate IsSymbol(t: Tree, v: int) {
    0 - t.Top() <= v <= t.Top()
  }

  /** The code of a symbol. */
  function Code(t: Tree, v: int): Bits
    requires IsSymbol(t, v)
  {
    Path(t, v - 15)
  }

  function Codes(t: Tree, vs: seq<int>): Bits
    requires forall k :: 0 <= k < |vs| ==> IsSymbol(t, vs[k])
  {
    if vs == [] then [] else Code(t, vs[0]) + Codes(t, vs[1..])
  }

  // ----- the walker

  /** The symbol and the position that a walk from row i at position p ends with: every walk ends. */
  function Walk(t: Tree, i: nat, buffer: seq<Byte>, p: nat): (r: (int, nat))
    requires i < t.Rows()
    ensures IsSymbol(t, r.0) && p < r.1 <= p + (t.Rows() - i)
    decreases t.Rows() - i
  {
    EntryStands(t, i, StreamBit(buffer, p));
    var e := t.Entry(i, StreamBit(buffer, p));
    if e < 0 then (e + 15, p + 1) else Walk(t, e, buffer, p + 1)
  }

  function WalkMany(t: Tree, n: nat, buffer: seq<Byte>, p: nat): (r: (seq<int>, nat))
    ensures |r.0| == n && (forall k :: 0 <= k < n ==> IsSymbol(t, r.0[k])) && p + n <= r.1
  {
    if n == 0 then ([], p)
    else
      var (vs, q) := WalkMany(t, n - 1, buffer, p);
      var (v, q') := Walk(t, 0, buffer, q);
      (vs + [v], q')
  }

  /** What a walk at this index, row or leaf, ends with. */
  function Ahead(t: Tree, index: int, buffer: seq<Byte>, p: nat): (int, nat)
    requires index < t.Rows()
  {
    if index < 0 then (index + 15, p) else Walk(t, index, buffer, p)
  }

  lemma AheadStep(t: Tree, index: int, b: bool, buffer: seq<Byte>, p: nat)
    requires 0 <= index < t.Rows() && b == StreamBit(buffer, p)
    ensures t.Entry(index, b) < t.Rows() && (t.Entry(index, b) >= 0 ==> index < t.Entry(index, b))
    ensures Ahead(t, index, buffer, p) == Ahead(t, t.Entry(index, b), buffer, p + 1)
  {
    EntryStands(t, index, b);
    hide t.Entry, t.Place;
  }

  lemma AheadOfRoot(t: Tree, buffer: seq<Byte>, p: nat)
    ensures 0 < t.Rows() && Ahead(t, 0, buffer, p) == Walk(t, 0, buffer, p)
  {
  }

  lemma AheadDone(t: Tree, index: int, buffer: seq<Byte>, p: nat)
    requires index < 0 && index < t.Rows()
    ensures Ahead(t, index, buffer, p) == (index + 15, p)
  {
  }

  /** `huff_dec` */
  method HuffDec(ld: BitFile, t: Tree) returns (v: int)
    requires ld.Valid()
    modifies ld
    ensures ld.Valid() && (v, ld.Pos()) == Walk(t, 0, ld.buffer, old(ld.Pos()))
  {
    hide *;
    AheadOfRoot(t, ld.buffer, ld.Pos());
    ghost var start := ld.Pos();
    var index: int := 0;
    while index >= 0
      invariant ld.Valid() && index < t.Rows()
      invariant Ahead(t, index, ld.buffer, ld.Pos()) == Ahead(t, 0, ld.buffer, start)
      decreases if index >= 0 then t.Rows() - index else 0
    {
      AheadStep(t, index, StreamBit(ld.buffer, ld.Pos()), ld.buffer, ld.Pos());
      var bit := ld.Get1Bit();
      index := t.Entry(index, bit == 1);
    }
    AheadDone(t, index, ld.buffer, ld.Pos());
    v := index + 15;
  }

  lemma WalkStep(t: Tree, i: nat, b: bool, buffer: seq<Byte>, p: nat)
    requires i < t.Rows() && StreamBit(buffer, p) == b
    ensures Stands(t, t.Entry(i, b)) && (t.Entry(i, b) >= 0 ==> i < t.Entry(i, b) < t.Rows())
    ensures Walk(t, i, buffer, p)
         == if t.Entry(i, b) < 0 then (t.Entry(i, b) + 15, p + 1) else Walk(t, t.Entry(i, b), buffer, p + 1)
  {
    EntryStands(t, i, b);
    hide t.Entry, t.Place;
  }

  lemma PathStep(t: Tree, e: int)
    requires Stands(t, e)
    ensures var (i, b) := t.Place(e);
            && i < t.Rows() && t.Entry(i, b) == e && (e > 0 ==> i < e) && (i > 0 ==> Stands(t, i))
            && Path(t, e) == (if i == 0 then [] else Path(t, i)) + [b]
  {
    PlaceHolds(t, e);
    hide t.Entry, t.Place;
  }

  /** Following the path of row e from the root leads to row e. */
  lemma {:induction false} PathLeads(t: Tree, e: nat, buffer: seq<Byte>, p: nat)
    requires 0 < e < t.Rows() && Stands(t, e) && Stream(buffer, p, |Path(t, e)|) == Path(t, e)
    ensures Walk(t, 0, buffer, p) == Walk(t, e, buffer, p + |Path(t, e)|)
    decreases e
  {
    hide *;
    PathStep(t, e);
    var (i, b) := t.Place(e);
    LastBit(buffer, p, Path(t, e));
    if i > 0 {
      StandsRow(t, i);
      PathLeads(t, i, buffer, p);
    }
    WalkStep(t, i, b, buffer, p + |Path(t, e)| - 1);
  }

  lemma StandsRow(t: Tree, i: nat)
    requires 0 < i < t.Rows()
    ensures Stands(t, i)
  {
  }

  /** A list of bits seen at p, but for its last one, and that one. */
  lemma LastBit(buffer: seq<Byte>, p: nat, s: Bits)
    requires s != [] && Stream(buffer, p, |s|) == s
    ensures Stream(buffer, p, |s| - 1) == s[..|s| - 1]
    ensures StreamBit(buffer, p + |s| - 1) == s[|s| - 1]
  {
    hide StreamBit;
    var n := |s| - 1;
    assert Stream(buffer, p, |s|)[n] == StreamBit(buffer, p + n);
    assert Stream(buffer, p, |s|)[..n] == Stream(buffer, p, n);
  }

  /** Decoding undoes the code of every symbol of every tree. */
  lemma CodeDecodes(t: Tree, v: int, buffer: seq<Byte>, p: nat)
    requires IsSymbol(t, v) && Stream(buffer, p, |Code(t, v)|) == Code(t, v)
    ensures Walk(t, 0, buffer, p) == (v, p + |Code(t, v)|)
  {
    hide *;
    CodeIsPath(t, v);
    LeafDecodes(t, v - 15, buffer, p);
  }

  lemma LeafDecodes(t: Tree, e: int, buffer: seq<Byte>, p: nat)
    requires Stands(t, e) && e < 0 && Stream(buffer, p, |Path(t, e)|) == Path(t, e)
    ensures Walk(t, 0, buffer, p) == (e + 15, p + |Path(t, e)|)
  {
    hide *;
    PathStep(t, e);
    var (i, b) := t.Place(e);
    LastBit(buffer, p, Path(t, e));
    if i > 0 {
      PathLeads(t, i, buffer, p);
    }
    WalkStep(t, i, b, buffer, p + |Path(t, e)| - 1);
  }

  lemma CodeIsPath(t: Tree, v: int)
    requires IsSymbol(t, v)
    ensures Stands(t, v - 15) && v - 15 < 0 && Code(t, v) == Path(t, v - 15) && |Code(t, v)| > 0
  {
    PathStep(t, v - 15);
    hide Path, t.Entry, t.Place;
  }

  /** And whatever a walk consumes is the code of what it returns, so no other coding exists. */
  lemma {:induction false} WalkIsCode(t: Tree, i: nat, buffer: seq<Byte>, start: nat, p: nat)
    requires i < t.Rows() && start <= p
    requires if i == 0 then p == start else Stands(t, i) && Stream(buffer, start, p - start) == Path(t, i)
    ensures var (v, q) := Walk(t, i, buffer, p);
            Stream(buffer, start, q - start) == Code(t, v)
    decreases t.Rows() - i
  {
    hide *;
    var b := StreamBit(buffer, p);
    var e := t.Entry(i, b);
    WalkStep(t, i, b, buffer, p);
    EntryStands(t, i, b);
    PathStep(t, e);
    OneMoreBit(buffer, start, p - start);
    NoBits(buffer, start);
    if e >= 0 {
      EntryIsRow(t, i, b);
      WalkIsCode(t, e, buffer, start, p + 1);
    } else {
      LeafIsSymbol(t, e);
    }
  }

  lemma LeafIsSymbol(t: Tree, e: int)
    requires Stands(t, e) && e < 0
    ensures IsSymbol(t, e + 15) && Code(t, e + 15) == Path(t, e)
  {
    hide Path, t.Entry, t.Place;
  }

  lemma EntryIsRow(t: Tree, i: nat, b: bool)
    requires i < t.Rows() && t.Entry(i, b) >= 0
    ensures t.Entry(i, b) > 0
  {
    EntryStands(t, i, b);
    hide t.Entry, t.Place;
  }

  lemma NoBits(buffer: seq<Byte>, p: nat)
    ensures Stream(buffer, p, 0) == []
  {
  }

  lemma OneMoreBit(buffer: seq<Byte>, start: nat, n: nat)
    ensures Stream(buffer, start, n + 1) == Stream(buffer, start, n) + [StreamBit(buffer, start + n)]
  {
  }

  /** Any sequence of symbols comes back from its codes. */
  lemma {:induction false} CodesDecode(t: Tree, vs: seq<int>, buffer: seq<Byte>, p: nat)
    requires forall k :: 0 <= k < |vs| ==> IsSymbol(t, vs[k])
    requires Stream(buffer, p, |Codes(t, vs)|) == Codes(t, vs)
    ensures WalkMany(t, |vs|, buffer, p) == (vs, p + |Codes(t, vs)|)
    decreases |vs|
  {
    hide Code, Walk, IsSymbol, StreamBit;
    if vs != [] {
      var n := |vs| - 1;
      var a, b := Codes(t, vs[..n]), Code(t, vs[n]);
      CodesSnoc(t, vs);
      Halves(buffer, p, a, b);
      CodesDecode(t, vs[..n], buffer, p);
      CodeDecodes(t, vs[n], buffer, p + |a|);
      assert vs[..n] + [vs[n]] == vs;
    }
  }

  lemma {:induction false} CodesSnoc(t: Tree, vs: seq<int>)
    requires vs != [] && forall k :: 0 <= k < |vs| ==> IsSymbol(t, vs[k])
    ensures Codes(t, vs) == Codes(t, vs[..|vs| - 1]) + Code(t, vs[|vs| - 1])
    decreases |vs|
  {
    hide *;
    var n := |vs| - 1;
    var front := vs[..n];
    CodesFirst(t, vs);
    if n > 0 {
      CodesSnoc(t, vs[1..]);
      CodesFirst(t, front);
      assert vs[1..][..n - 1] == front[1..];
      assert vs[1..][n - 1] == vs[n];
      Joined(Code(t, vs[0]), Codes(t, front[1..]), Code(t, vs[n]));
    } else {
      assert vs[1..] == [] && front == [];
      NoCodes(t);
    }
  }

  lemma CodesFirst(t: Tree, vs: seq<int>)
    requires vs != [] && forall k :: 0 <= k < |vs| ==> IsSymbol(t, vs[k])
    ensures Codes(t, vs) == Code(t, vs[0]) + Codes(t, vs[1..])
  {
    hide Code, IsSymbol;
  }

  lemma NoCodes(t: Tree)
    ensures Codes(t, []) == []
  {
  }

  lemma Joined(a: Bits, b: Bits, c: Bits)
    ensures a + (b + c) == (a + b) + c
  {
  }

  lemma Halves(buffer: seq<Byte>, p: nat, a: Bits, b: Bits)
    requires Stream(buffer, p, |a + b|) == a + b
    ensures Stream(buffer, p, |a|) == a && Stream(buffer, p + |a|, |b|) == b
  {
    hide StreamBit;
    var s := Stream(buffer, p, |a + b|);
    forall j | 0 <= j < |a| ensures Stream(buffer, p, |a|)[j] == a[j] {
      assert s[j] == (a + b)[j];
    }
    forall j | 0 <= j < |b| ensures Stream(buffer, p + |a|, |b|)[j] == b[j] {
      assert s[|a| + j] == (a + b)[|a| + j];
      assert p + (|a| + j) == p + |a| + j;
    }
  }
}
