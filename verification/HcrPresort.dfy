/**
  * The pre-sorting of section 8.5.3.3.1, as the six nested loops of
  * `reordered_spectral_data` enumerate the codewords: by codebook, then by place
  * in the spectrum, four lines of a window at a time.
  */
module HcrPresort {
  import Arith
  import opened Codewords
  import opened Hcr

  datatype Section = Section(start: nat, end: nat, cb: nat)

  datatype Group = Group(len: nat, sections: seq<Section>, sfbOffset: seq<nat>)

  /** The fields of `ic_stream` that the loops look at; nshort is an eighth of the frame length. */
  datatype Ics = Ics(maxSfb: nat, swb: seq<nat>, swbMax: nat, nshort: nat, groups: seq<Group>)
  {
    /** `sp_offset` */
    function At(g: nat): nat
      requires g <= |groups|
    {
      if g == 0 then 0 else At(g - 1) + nshort * groups[g - 1].len
    }

    /** What `window_grouping_info` and `section_data` leave: offsets that fit together, sections one after another. */
    ghost predicate Valid(frame: nat) {
      && maxSfb < |swb|
      && (forall sfb :: 0 <= sfb < maxSfb ==> WholeBand(sfb))
      && (forall sfb :: 0 <= sfb <= maxSfb ==> swb[sfb] <= swb[maxSfb] <= swbMax)
      && (swb[maxSfb] <= nshort || |groups| <= 1)
      && (forall g :: 0 <= g < |groups| ==> ValidGroup(g, frame))
    }

    /** A scale factor band is a number of four-line columns. */
    predicate WholeBand(sfb: nat)
      requires sfb + 1 < |swb|
    {
      swb[sfb] <= swb[sfb + 1] && (swb[sfb + 1] - swb[sfb]) % 4 == 0
    }

    ghost predicate ValidGroup(g: nat, frame: nat)
      requires g < |groups| && maxSfb < |swb|
    {
      var gr := groups[g];
      && 0 < gr.len && maxSfb < |gr.sfbOffset|
      && (forall sfb :: 0 <= sfb <= maxSfb ==> gr.sfbOffset[sfb] == gr.len * swb[sfb])
      && (forall i, j :: 0 <= i < j < |gr.sections| ==> gr.sections[i].end <= gr.sections[j].start)
      && At(g) + gr.len * swb[maxSfb] <= frame
    }
  }

  /** `PreSortCB_STD`, or `PreSortCB_ER` with section data resilience. */
  function Book(er: bool, s: nat): nat {
    if er then (if s == 0 then 11 else if s <= 16 then 32 - s else if s <= 21 then 43 - 2 * s else 0)
    else if s <= 5 then 11 - 2 * s else 0
  }

  /** `NUM_CB_ER`, `NUM_CB` */
  function Books(er: bool): nat {
    if er then 22 else 6
  }

  /** `is_good_cb` */
  predicate IsGoodCb(thisCb: nat, secCb: nat) {
    IsSpectral(secCb) && (secCb == thisCb || (thisCb < 11 && secCb == thisCb + 1))
  }

  /** The pass in which a codebook's codewords are taken. */
  function PassOf(er: bool, cb: nat): int {
    if cb == 11 then 0
    else if cb >= 16 then (if er then 32 - cb else -1)
    else if er then 22 - (cb + 1) / 2 else 6 - (cb + 1) / 2
  }

  /** Every codebook is taken in exactly one pass; the virtual ones only with section data resilience. */
  lemma OnePass(er: bool, s: nat, cb: nat)
    requires IsSpectral(cb) && s < Books(er)
    ensures IsGoodCb(Book(er, s), cb) <==> s == PassOf(er, cb)
    ensures 0 <= PassOf(er, cb) < Books(er) || (!er && cb >= 16)
  {
  }

  /** The largest absolute value in the pass of a book; book 11 itself is bounded by its longest codeword. */
  function LargestOf(cb: nat): nat {
    match cb
    case 1 => 1
    case 3 => 2
    case 5 => 4
    case 7 => 7
    case 9 => 12
    case 11 => 8191
    case _ => Lav(cb)
  }

  /** Books that can hold larger values go first. */
  lemma LargestFirst(er: bool, s: nat, r: nat)
    requires s < r < Books(er)
    ensures LargestOf(Book(er, s)) > LargestOf(Book(er, r)) >= 1
  {
  }

  /** The order of the passes in full. */
  lemma PassesInOrder()
    ensures seq(Books(false), (s: nat) => Book(false, s)) == [11, 9, 7, 5, 3, 1]
    ensures seq(Books(true), (s: nat) => Book(true, s))
         == [11, 31, 30, 29, 28, 27, 26, 25, 24, 23, 22] + [21, 20, 19, 18, 17, 16, 9, 7, 5, 3, 1]
  {
    assert Books(false) == 6 && Books(true) == 22;
  }

  /** A pass takes the book it is named after and, below 11, the next one. */
  lemma PassTakes(er: bool, cb: nat)
    requires IsSpectral(cb) && (er || cb <= 11)
    ensures 0 <= PassOf(er, cb) < Books(er)
    ensures Book(er, PassOf(er, cb)) == if cb < 11 && cb % 2 == 0 then cb - 1 else cb
  {
  }

  /** A codeword: the loop counters that lead to it, its codebook and its place in the spectrum. */
  datatype Word = Word(s: nat, sfb: nat, w: nat, g: nat, i: nat, c: nat, cb: nat, sp: nat)

  /** `group_cws_count` */
  function Count(len: nat, cb: nat): nat {
    if cb < 5 then len else 2 * len
  }

  /** A band covers the four lines of column w: `4*w_idx < min(swb_offset[sfb+1], swb_offset_max) - swb_offset[sfb]`. */
  predicate HasColumn(ics: Ics, sfb: nat, w: nat) {
    && sfb < ics.maxSfb && ics.maxSfb < |ics.swb|
    && ics.swb[sfb] + 4 * w < (if ics.swb[sfb + 1] < ics.swbMax then ics.swb[sfb + 1] else ics.swbMax)
  }

  predicate HasCell(ics: Ics, er: bool, s: nat, sfb: nat, g: nat, i: nat) {
    && g < |ics.groups| && i < |ics.groups[g].sections|
    && var sec := ics.groups[g].sections[i];
       sec.start <= sfb < sec.end && IsGoodCb(Book(er, s), sec.cb)
  }

  /** Where the c-th codeword of a column stands: `inc * (cws + w_idx * group_cws_count)` from the band's start. */
  function PlaceOf(ics: Ics, sfb: nat, w: nat, g: nat, c: nat, cb: nat): nat
    requires g < |ics.groups| && sfb < |ics.groups[g].sfbOffset|
  {
    ics.At(g) + ics.groups[g].sfbOffset[sfb] + Width(cb) * (c + w * Count(ics.groups[g].len, cb))
  }

  /** Windows in the first g groups. */
  function Windows(groups: seq<Group>, g: nat): nat
    requires g <= |groups|
  {
    if g == 0 then 0 else Windows(groups, g - 1) + groups[g - 1].len
  }

  lemma {:induction false} GroupStart(ics: Ics, g: nat)
    requires g <= |ics.groups|
    ensures ics.At(g) == ics.nshort * Windows(ics.groups, g)
  {
    if g > 0 {
      GroupStart(ics, g - 1);
      Arith.MulDist(ics.nshort, Windows(ics.groups, g - 1), ics.groups[g - 1].len);
    }
  }

  /**
    * Where a codeword stands: behind the windows of the groups before, behind the lines below
    * its column in all windows of its group, and its own number of lines behind each one before it.
    */
  lemma PlaceIs(ics: Ics, frame: nat, sfb: nat, w: nat, g: nat, c: nat, cb: nat)
    requires ics.Valid(frame) && sfb < ics.maxSfb && g < |ics.groups|
    ensures sfb < |ics.groups[g].sfbOffset|
    ensures PlaceOf(ics, sfb, w, g, c, cb)
         == ics.nshort * Windows(ics.groups, g) + ics.groups[g].len * (ics.swb[sfb] + 4 * w) + (if cb < 5 then 4 * c else 2 * c)
  {
    hide ics.Valid, ics.At, Windows, Width, Count;
    BandStart(ics, frame, sfb, g);
    GroupStart(ics, g);
    LinesBefore(ics.groups[g].len, ics.swb[sfb], w, c, cb);
  }

  lemma BandStart(ics: Ics, frame: nat, sfb: nat, g: nat)
    requires ics.Valid(frame) && sfb < ics.maxSfb && g < |ics.groups|
    ensures sfb < |ics.swb| && sfb < |ics.groups[g].sfbOffset|
    ensures ics.groups[g].sfbOffset[sfb] == ics.groups[g].len * ics.swb[sfb]
  {
    assert ics.ValidGroup(g, frame);
  }

  lemma LinesBefore(len: nat, s: nat, w: nat, c: nat, cb: nat)
    ensures len * s + Width(cb) * (c + w * Count(len, cb)) == len * (s + 4 * w) + if cb < 5 then 4 * c else 2 * c
  {
    Arith.MulDist(len, s, 4 * w);
    Arith.MulComm(len, 4 * w);
    Arith.MulAssoc(4, w, len);
    Arith.MulComm(w, 2);
    Arith.MulAssoc(w, 2, len);
    Arith.MulAssoc(2, w, len);
  }

  /** A codeword that belongs in the list. */
  ghost predicate Belongs(ics: Ics, er: bool, x: Word) {
    && x.s < Books(er) && HasColumn(ics, x.sfb, x.w) && HasCell(ics, er, x.s, x.sfb, x.g, x.i)
    && x.sfb < |ics.groups[x.g].sfbOffset|
    && x.cb == ics.groups[x.g].sections[x.i].cb
    && x.c < Count(ics.groups[x.g].len, x.cb)
    && x.sp == PlaceOf(ics, x.sfb, x.w, x.g, x.c, x.cb)
  }

  /** The order of the loops. */
  predicate Earlier(x: Word, y: Word) {
    x.s < y.s || (x.s == y.s &&
    (x.sfb < y.sfb || (x.sfb == y.sfb &&
    (x.w < y.w || (x.w == y.w &&
    (x.g < y.g || (x.g == y.g &&
    (x.i < y.i || (x.i == y.i && x.c < y.c)))))))))
  }

  // ----- distinct codewords have distinct places

  /** The first line of a column. */
  function Column(ics: Ics, g: nat, q: nat): nat
    requires g < |ics.groups|
  {
    ics.At(g) + ics.groups[g].len * q
  }

  /** A codeword lies inside the column of its band, at its own place there. */
  lemma InsideColumn(ics: Ics, er: bool, frame: nat, x: Word)
    requires ics.Valid(frame) && Belongs(ics, er, x)
    ensures var q, len := ics.swb[x.sfb] + 4 * x.w, ics.groups[x.g].len;
            && x.sp == Column(ics, x.g, q) + Width(x.cb) * x.c
            && Width(x.cb) * x.c + Width(x.cb) <= 4 * len
            && q + 4 <= ics.swb[x.sfb + 1] <= ics.swb[ics.maxSfb]
  {
    var len := ics.groups[x.g].len;
    assert ics.ValidGroup(x.g, frame) && ics.WholeBand(x.sfb);
    InsidePlace(len, x.cb, x.c, x.w, ics.swb[x.sfb]);
    hide ics.Valid, ics.ValidGroup, Ics.At, HasCell;
  }

  lemma InsidePlace(len: nat, cb: nat, c: nat, w: nat, start: nat)
    requires c < Count(len, cb)
    ensures len * start + Width(cb) * (c + w * Count(len, cb)) == len * (start + 4 * w) + Width(cb) * c
    ensures Width(cb) * c + Width(cb) <= 4 * len
  {
    var n, inc := Count(len, cb), Width(cb);
    Arith.MulDist(inc, c, w * n);
    Arith.MulDist(len, start, 4 * w);
    if inc == 4 {
      Arith.MulAssoc(4, w, n);
      Arith.MulComm(4 * w, n);
    } else {
      Arith.MulAssoc(w, 2, len);
      Arith.MulAssoc(2, w * 2, len);
      Arith.MulComm(4 * w, len);
    }
  }

  lemma ColumnsApart(ics: Ics, frame: nat, g: nat, q: nat, g': nat, q': nat)
    requires ics.Valid(frame) && g < |ics.groups| && g' < |ics.groups|
    requires q + 4 <= ics.swb[ics.maxSfb] && q' + 4 <= ics.swb[ics.maxSfb]
    requires g < g' || (g == g' && q + 4 <= q')
    ensures Column(ics, g, q) + 4 * ics.groups[g].len <= Column(ics, g', q')
  {
    var len := ics.groups[g].len;
    Arith.MulDist(len, q, 4);
    if g == g' {
      Arith.MulDist(len, q + 4, q' - (q + 4));
      Arith.MulNonneg(len, q' - (q + 4));
    } else {
      Arith.MulDist(len, q + 4, ics.nshort - (q + 4));
      Arith.MulNonneg(len, ics.nshort - (q + 4));
      Arith.MulComm(len, ics.nshort);
      AtGrows(ics, g + 1, g');
      Arith.MulNonneg(ics.groups[g'].len, q');
    }
  }

  lemma {:induction false} AtGrows(ics: Ics, g: nat, g': nat)
    requires g <= g' <= |ics.groups|
    ensures ics.At(g) <= ics.At(g')
    decreases g'
  {
    if g < g' {
      AtGrows(ics, g, g' - 1);
      Arith.MulNonneg(ics.nshort, ics.groups[g' - 1].len);
    }
  }

  /** Bands one after another. */
  lemma {:induction false} BandsGrow(ics: Ics, frame: nat, a: nat, b: nat)
    requires ics.Valid(frame) && a <= b <= ics.maxSfb
    ensures ics.swb[a] <= ics.swb[b]
    decreases b
  {
    if a < b {
      BandsGrow(ics, frame, a, b - 1);
      assert ics.WholeBand(b - 1);
    }
  }

  /** One section to a band, and one pass to a section. */
  lemma SameCell(ics: Ics, er: bool, frame: nat, x: Word, y: Word)
    requires ics.Valid(frame) && Belongs(ics, er, x) && Belongs(ics, er, y)
    requires x.g == y.g && x.sfb == y.sfb
    ensures x.i == y.i && x.s == y.s && x.cb == y.cb
  {
    assert ics.ValidGroup(x.g, frame);
    OnePass(er, x.s, x.cb);
    OnePass(er, y.s, y.cb);
  }

  lemma PlacesApart(ics: Ics, er: bool, frame: nat, x: Word, y: Word)
    requires ics.Valid(frame) && Belongs(ics, er, x) && Belongs(ics, er, y) && Earlier(x, y)
    ensures Apart(x.sp, Width(x.cb), y.sp, Width(y.cb))
  {
    InsideColumn(ics, er, frame, x);
    InsideColumn(ics, er, frame, y);
    var q, q' := ics.swb[x.sfb] + 4 * x.w, ics.swb[y.sfb] + 4 * y.w;
    if x.g == y.g && x.sfb == y.sfb {
      SameCell(ics, er, frame, x, y);
    }
    hide Belongs, ics.Valid, ics.WholeBand, Column;
    if x.g == y.g && q == q' && x.sfb == y.sfb {
      SameColumn(Width(x.cb), x.c, y.c);
    } else if x.g < y.g || (x.g == y.g && q + 4 <= q') {
      ColumnsApart(ics, frame, x.g, q, y.g, q');
      Arith.MulNonneg(Width(y.cb), y.c);
    } else {
      BandOrder(ics, er, frame, x, y);
      ColumnsApart(ics, frame, y.g, q', x.g, q);
      Arith.MulNonneg(Width(x.cb), x.c);
    }
  }

  lemma SameColumn(inc: nat, c: nat, c': nat)
    requires c < c'
    ensures inc * c + inc <= inc * c'
  {
    Arith.MulDist(inc, c + 1, c' - (c + 1));
    Arith.MulDist(inc, c, 1);
    Arith.MulNonneg(inc, c' - (c + 1));
  }

  lemma BandOrder(ics: Ics, er: bool, frame: nat, x: Word, y: Word)
    requires ics.Valid(frame) && Belongs(ics, er, x) && Belongs(ics, er, y)
    requires var q, q' := ics.swb[x.sfb] + 4 * x.w, ics.swb[y.sfb] + 4 * y.w;
             && (x.g > y.g || (x.g == y.g && q + 4 > q'))
             && !(x.g == y.g && q == q' && x.sfb == y.sfb)
    ensures var q, q' := ics.swb[x.sfb] + 4 * x.w, ics.swb[y.sfb] + 4 * y.w;
            y.g < x.g || (y.g == x.g && q' + 4 <= q)
  {
    InsideColumn(ics, er, frame, x);
    InsideColumn(ics, er, frame, y);
    if x.sfb < y.sfb {
      BandsGrow(ics, frame, x.sfb + 1, y.sfb);
    } else if y.sfb < x.sfb {
      BandsGrow(ics, frame, y.sfb + 1, x.sfb);
    }
  }

  // ----- the loops

  /** The list so far: exactly the codewords before the counters cur, in order. */
  ghost predicate Ranked(ics: Ics, er: bool, ws: seq<Word>, cur: Word) {
    && (forall p :: 0 <= p < |ws| ==> Belongs(ics, er, ws[p]) && Earlier(ws[p], cur))
    && (forall p, q :: 0 <= p < q < |ws| ==> Earlier(ws[p], ws[q]))
    && (forall x :: Belongs(ics, er, x) && Earlier(x, cur) ==> x in ws)
  }

  function Counters(s: nat, sfb: nat, w: nat, g: nat, i: nat, c: nat): Word {
    Word(s, sfb, w, g, i, c, 0, 0)
  }

  lemma EarlierTrans(x: Word, y: Word, z: Word)
    ensures Earlier(x, y) && Earlier(y, z) ==> Earlier(x, z)
  {
  }

  /** Counters that no codeword has are passed over. */
  lemma PassOver(ics: Ics, er: bool, ws: seq<Word>, cur: Word, next: Word)
    requires Ranked(ics, er, ws, cur) && Earlier(cur, next)
    requires forall x :: Belongs(ics, er, x) && Earlier(x, next) ==> Earlier(x, cur)
    ensures Ranked(ics, er, ws, next)
  {
    hide Belongs, Earlier;
    forall p | 0 <= p < |ws| ensures Earlier(ws[p], next) {
      EarlierTrans(ws[p], cur, next);
    }
  }

  /** The codeword at the counters joins the list. */
  lemma Join(ics: Ics, er: bool, ws: seq<Word>, x: Word)
    requires Belongs(ics, er, x) && Ranked(ics, er, ws, Counters(x.s, x.sfb, x.w, x.g, x.i, x.c))
    ensures Ranked(ics, er, ws + [x], Counters(x.s, x.sfb, x.w, x.g, x.i, x.c + 1))
  {
    var cur, next := Counters(x.s, x.sfb, x.w, x.g, x.i, x.c), Counters(x.s, x.sfb, x.w, x.g, x.i, x.c + 1);
    forall p | 0 <= p < |ws| ensures Earlier(ws[p], x) && Earlier(ws[p], next) {
      assert Earlier(ws[p], cur);
    }
    forall y | Belongs(ics, er, y) && Earlier(y, next) ensures y in ws + [x] {
      OneWord(ics, er, x, y);
    }
    hide Belongs, Earlier;
  }

  /** The counters determine the codeword. */
  lemma OneWord(ics: Ics, er: bool, x: Word, y: Word)
    requires Belongs(ics, er, x) && Belongs(ics, er, y)
    requires Earlier(y, Counters(x.s, x.sfb, x.w, x.g, x.i, x.c + 1))
    ensures y == x || Earlier(y, Counters(x.s, x.sfb, x.w, x.g, x.i, x.c))
  {
    hide PlaceOf;
  }

  /** The two lists that the decoder keeps of the codewords. */
  predicate Spells(cbs: seq<nat>, sps: seq<nat>, ws: seq<Word>) {
    |cbs| == |sps| == |ws| && forall k :: 0 <= k < |ws| ==> cbs[k] == ws[k].cb && sps[k] == ws[k].sp
  }

  lemma Spell(cbs: seq<nat>, sps: seq<nat>, ws: seq<Word>, x: Word)
    requires Spells(cbs, sps, ws)
    ensures Spells(cbs + [x.cb], sps + [x.sp], ws + [x])
  {
  }

  lemma CountIs(len: nat, cb: nat)
    ensures 4 * len / Width(cb) == Count(len, cb)
  {
  }

  /** `cws + w_idx*group_cws_count < sect_sfb_size` */
  predicate InBand(gr: Group, sfb: nat, w: nat, count: nat, c: nat)
    requires sfb + 1 < |gr.sfbOffset|
  {
    c + w * count < (gr.sfbOffset[sfb + 1] as int) - gr.sfbOffset[sfb]
  }

  /** The end of the band never stops a column: there are as many codewords as it has room for. */
  lemma CellFits(ics: Ics, frame: nat, sfb: nat, w: nat, g: nat, cb: nat, c: nat)
    requires ics.Valid(frame) && HasColumn(ics, sfb, w) && g < |ics.groups| && c < Count(ics.groups[g].len, cb)
    ensures sfb + 1 < |ics.groups[g].sfbOffset|
    ensures InBand(ics.groups[g], sfb, w, Count(ics.groups[g].len, cb), c)
  {
    var len, n := ics.groups[g].len, Count(ics.groups[g].len, cb);
    assert ics.ValidGroup(g, frame) && ics.WholeBand(sfb);
    var W := ics.swb[sfb + 1] - ics.swb[sfb];
    assert 4 * w + 4 <= W;
    Arith.MulDist(len, ics.swb[sfb], W);
    Arith.MulDist(len, 4 * w + 4, W - (4 * w + 4));
    Arith.MulNonneg(len, W - (4 * w + 4));
    Arith.MulDist(len, 4 * w, 4);
    ColumnRoom(len, n, w, cb);
  }

  lemma ColumnRoom(len: nat, n: nat, w: nat, cb: nat)
    requires n == Count(len, cb)
    ensures w * n + n <= len * (4 * w) + 4 * len
  {
    Arith.MulComm(len, 4 * w);
    Arith.MulAssoc(4, w, len);
    Arith.MulNonneg(w, len);
    if cb >= 5 {
      Arith.MulAssoc(w, 2, len);
      Arith.MulComm(w, 2);
      Arith.MulAssoc(2, w, len);
    }
  }

  /** What stands at these counters, if anything does, belongs in the list. */
  lemma Found(ics: Ics, er: bool, frame: nat, x: Word)
    requires ics.Valid(frame) && x.s < Books(er) && HasColumn(ics, x.sfb, x.w) && HasCell(ics, er, x.s, x.sfb, x.g, x.i)
    requires x.cb == ics.groups[x.g].sections[x.i].cb && x.c < Count(ics.groups[x.g].len, x.cb)
    ensures x.sfb + 1 < |ics.groups[x.g].sfbOffset|
    ensures x.sp == PlaceOf(ics, x.sfb, x.w, x.g, x.c, x.cb) ==> Belongs(ics, er, x)
  {
    assert ics.ValidGroup(x.g, frame);
  }

  /** No more codewords in this section and column. */
  lemma CellDone(ics: Ics, er: bool, ws: seq<Word>, s: nat, sfb: nat, w: nat, g: nat, i: nat, c: nat)
    requires g < |ics.groups| && i < |ics.groups[g].sections|
    requires Ranked(ics, er, ws, Counters(s, sfb, w, g, i, c))
    requires HasCell(ics, er, s, sfb, g, i) ==> c >= Count(ics.groups[g].len, ics.groups[g].sections[i].cb)
    ensures Ranked(ics, er, ws, Counters(s, sfb, w, g, i + 1, 0))
  {
    hide PlaceOf, Ranked;
    PassOver(ics, er, ws, Counters(s, sfb, w, g, i, c), Counters(s, sfb, w, g, i + 1, 0));
  }

  /** No more sections in this group. */
  lemma GroupDone(ics: Ics, er: bool, ws: seq<Word>, s: nat, sfb: nat, w: nat, g: nat)
    requires g < |ics.groups| && Ranked(ics, er, ws, Counters(s, sfb, w, g, |ics.groups[g].sections|, 0))
    ensures Ranked(ics, er, ws, Counters(s, sfb, w, g + 1, 0, 0))
  {
    hide PlaceOf, Ranked;
    PassOver(ics, er, ws, Counters(s, sfb, w, g, |ics.groups[g].sections|, 0), Counters(s, sfb, w, g + 1, 0, 0));
  }

  /** No more groups in this column. */
  lemma ColumnDone(ics: Ics, er: bool, ws: seq<Word>, s: nat, sfb: nat, w: nat)
    requires Ranked(ics, er, ws, Counters(s, sfb, w, |ics.groups|, 0, 0))
    ensures Ranked(ics, er, ws, Counters(s, sfb, w + 1, 0, 0, 0))
  {
    hide PlaceOf, Ranked;
    PassOver(ics, er, ws, Counters(s, sfb, w, |ics.groups|, 0, 0), Counters(s, sfb, w + 1, 0, 0, 0));
  }

  /** No more columns in this band. */
  lemma BandDone(ics: Ics, er: bool, ws: seq<Word>, s: nat, sfb: nat, w: nat)
    requires !HasColumn(ics, sfb, w) && Ranked(ics, er, ws, Counters(s, sfb, w, 0, 0, 0))
    ensures Ranked(ics, er, ws, Counters(s, sfb + 1, 0, 0, 0, 0))
  {
    hide PlaceOf, Ranked, HasCell;
    PassOver(ics, er, ws, Counters(s, sfb, w, 0, 0, 0), Counters(s, sfb + 1, 0, 0, 0, 0));
  }

  /** No more bands in this pass. */
  lemma PassDone(ics: Ics, er: bool, ws: seq<Word>, s: nat)
    requires Ranked(ics, er, ws, Counters(s, ics.maxSfb, 0, 0, 0, 0))
    ensures Ranked(ics, er, ws, Counters(s + 1, 0, 0, 0, 0, 0))
  {
    hide PlaceOf, Ranked, HasCell;
    PassOver(ics, er, ws, Counters(s, ics.maxSfb, 0, 0, 0, 0), Counters(s + 1, 0, 0, 0, 0, 0));
  }

  /** The codewords of one section in one column. */
  method ListCell(ics: Ics, er: bool, ghost frame: nat, s: nat, sfb: nat, w: nat, g: nat, i: nat,
                  cbs: seq<nat>, sps: seq<nat>, ghost ws: seq<Word>)
    returns (cbs': seq<nat>, sps': seq<nat>, ghost ws': seq<Word>)
    requires ics.Valid(frame) && s < Books(er) && HasColumn(ics, sfb, w) && g < |ics.groups| && i < |ics.groups[g].sections|
    requires HasCell(ics, er, s, sfb, g, i)
    requires Ranked(ics, er, ws, Counters(s, sfb, w, g, i, 0)) && Spells(cbs, sps, ws)
    ensures Ranked(ics, er, ws', Counters(s, sfb, w, g, i + 1, 0)) && Spells(cbs', sps', ws')
  {
    cbs', sps', ws' := cbs, sps, ws;
    var gr := ics.groups[g];
    var cb := gr.sections[i].cb;
    assert ics.ValidGroup(g, frame);
    var inc := Width(cb);
    var groupCwsCount := 4 * gr.len / inc;
    CountIs(gr.len, cb);
    assert cb == ics.groups[g].sections[i].cb && groupCwsCount == Count(gr.len, cb);
    hide *;
    var cws := 0;
    while cws < groupCwsCount && InBand(gr, sfb, w, groupCwsCount, cws)
      invariant cws <= groupCwsCount
      invariant Ranked(ics, er, ws', Counters(s, sfb, w, g, i, cws)) && Spells(cbs', sps', ws')
    {
      var sp := PlaceOf(ics, sfb, w, g, cws, cb);
      ghost var x := Word(s, sfb, w, g, i, cws, cb, sp);
      Found(ics, er, frame, x);
      Join(ics, er, ws', x);
      Spell(cbs', sps', ws', x);
      cbs', sps', ws' := cbs' + [cb], sps' + [sp], ws' + [x];
      cws := cws + 1;
    }
    if cws < groupCwsCount {
      CellFits(ics, frame, sfb, w, g, cb, cws);
    }
    CellDone(ics, er, ws', s, sfb, w, g, i, cws);
  }

  /** All groups and sections of one column. */
  method ListColumn(ics: Ics, er: bool, ghost frame: nat, s: nat, sfb: nat, w: nat,
                    cbs: seq<nat>, sps: seq<nat>, ghost ws: seq<Word>)
    returns (cbs': seq<nat>, sps': seq<nat>, ghost ws': seq<Word>)
    requires ics.Valid(frame) && s < Books(er) && HasColumn(ics, sfb, w)
    requires Ranked(ics, er, ws, Counters(s, sfb, w, 0, 0, 0)) && Spells(cbs, sps, ws)
    ensures Ranked(ics, er, ws', Counters(s, sfb, w + 1, 0, 0, 0)) && Spells(cbs', sps', ws')
  {
    cbs', sps', ws' := cbs, sps, ws;
    hide Ranked, Belongs, Spells, HasColumn, ics.Valid;
    for g := 0 to |ics.groups|
      invariant Ranked(ics, er, ws', Counters(s, sfb, w, g, 0, 0)) && Spells(cbs', sps', ws')
    {
      for i := 0 to |ics.groups[g].sections|
        invariant Ranked(ics, er, ws', Counters(s, sfb, w, g, i, 0)) && Spells(cbs', sps', ws')
      {
        var sec := ics.groups[g].sections[i];
        if sec.start <= sfb && sec.end > sfb && IsGoodCb(Book(er, s), sec.cb) {
          cbs', sps', ws' := ListCell(ics, er, frame, s, sfb, w, g, i, cbs', sps', ws');
        } else {
          CellDone(ics, er, ws', s, sfb, w, g, i, 0);
        }
      }
      GroupDone(ics, er, ws', s, sfb, w, g);
    }
    ColumnDone(ics, er, ws', s, sfb, w);
  }

  /** The pre-sorting loops of `reordered_spectral_data`. */
  method Presort(ics: Ics, er: bool, ghost frame: nat) returns (cbs: seq<nat>, sps: seq<nat>, ghost ws: seq<Word>)
    requires ics.Valid(frame)
    ensures Ranked(ics, er, ws, Counters(Books(er), 0, 0, 0, 0, 0)) && Spells(cbs, sps, ws)
  {
    cbs, sps, ws := [], [], [];
    assert Ranked(ics, er, ws, Counters(0, 0, 0, 0, 0, 0));
    hide Ranked, Belongs, ics.Valid;
    for sortloop := 0 to Books(er)
      invariant Ranked(ics, er, ws, Counters(sortloop, 0, 0, 0, 0, 0)) && Spells(cbs, sps, ws)
    {
      for sfb := 0 to ics.maxSfb
        invariant Ranked(ics, er, ws, Counters(sortloop, sfb, 0, 0, 0, 0)) && Spells(cbs, sps, ws)
      {
        var w := 0;
        while HasColumn(ics, sfb, w)
          invariant Ranked(ics, er, ws, Counters(sortloop, sfb, w, 0, 0, 0)) && Spells(cbs, sps, ws)
          decreases ics.swbMax - 4 * w
        {
          hide Spells;
          cbs, sps, ws := ListColumn(ics, er, frame, sortloop, sfb, w, cbs, sps, ws);
          w := w + 1;
        }
        BandDone(ics, er, ws, sortloop, sfb, w);
      }
      PassDone(ics, er, ws, sortloop);
    }
  }

  // ----- what the list is worth

  /** The whole list: every codeword of a spectral section, once, in order of importance, in places of their own. */
  ghost predicate Complete(ics: Ics, er: bool, ws: seq<Word>) {
    Ranked(ics, er, ws, Counters(Books(er), 0, 0, 0, 0, 0))
  }

  /** Every codeword of every section whose codebook is in use is in the list. */
  lemma EveryCodewordListed(ics: Ics, er: bool, frame: nat, ws: seq<Word>, sfb: nat, w: nat, g: nat, i: nat, c: nat)
    requires ics.Valid(frame) && Complete(ics, er, ws) && HasColumn(ics, sfb, w)
    requires g < |ics.groups| && i < |ics.groups[g].sections|
    requires var sec := ics.groups[g].sections[i];
             sec.start <= sfb < sec.end && IsSpectral(sec.cb) && (er || sec.cb <= 11) && c < Count(ics.groups[g].len, sec.cb)
    ensures sfb < |ics.groups[g].sfbOffset|
    ensures var cb := ics.groups[g].sections[i].cb;
            Word(PassOf(er, cb), sfb, w, g, i, c, cb, PlaceOf(ics, sfb, w, g, c, cb)) in ws
  {
    var cb := ics.groups[g].sections[i].cb;
    OnePass(er, 0, cb);
    OnePass(er, PassOf(er, cb), cb);
    assert ics.ValidGroup(g, frame);
    var x := Word(PassOf(er, cb), sfb, w, g, i, c, cb, PlaceOf(ics, sfb, w, g, c, cb));
    hide PlaceOf;
    assert Belongs(ics, er, x);
    assert Earlier(x, Counters(Books(er), 0, 0, 0, 0, 0));
  }

  /** What is to be listed, without the tests of the loops: see `PlaceIs` for the last line. */
  ghost predicate IsDue(ics: Ics, er: bool, x: Word) {
    && x.sfb < ics.maxSfb < |ics.swb| && x.g < |ics.groups| && x.i < |ics.groups[x.g].sections|
    && var gr := ics.groups[x.g];
       && gr.sections[x.i].start <= x.sfb < gr.sections[x.i].end && x.cb == gr.sections[x.i].cb
       && (1 <= x.cb <= 11 || (er && 16 <= x.cb <= 31)) && x.s == PassOf(er, x.cb)
       && ics.swb[x.sfb] + 4 * x.w < ics.swb[x.sfb + 1] && x.c < (if x.cb < 5 then gr.len else 2 * gr.len)
       && x.sp == ics.nshort * Windows(ics.groups, x.g) + gr.len * (ics.swb[x.sfb] + 4 * x.w) + (if x.cb < 5 then 4 else 2) * x.c
  }

  /** Exactly that is listed. */
  lemma ListedExactly(ics: Ics, er: bool, frame: nat, ws: seq<Word>, x: Word)
    requires ics.Valid(frame) && Complete(ics, er, ws)
    ensures x in ws <==> IsDue(ics, er, x)
  {
    if x in ws {
      ListedBelongs(ics, er, ws, x);
      BelongsIsDue(ics, er, frame, x);
    }
    if IsDue(ics, er, x) {
      DueBelongs(ics, er, frame, x);
      DueInTime(ics, er, x);
      hide *;
      EarlierListed(ics, er, ws, x);
    }
  }

  lemma ListedBelongs(ics: Ics, er: bool, ws: seq<Word>, x: Word)
    requires Complete(ics, er, ws) && x in ws
    ensures Belongs(ics, er, x)
  {
    hide Belongs, Earlier;
  }

  lemma EarlierListed(ics: Ics, er: bool, ws: seq<Word>, x: Word)
    requires Complete(ics, er, ws) && Belongs(ics, er, x) && Earlier(x, Counters(Books(er), 0, 0, 0, 0, 0))
    ensures x in ws
  {
    hide Belongs, Earlier;
  }

  lemma DueInTime(ics: Ics, er: bool, x: Word)
    requires IsDue(ics, er, x)
    ensures Earlier(x, Counters(Books(er), 0, 0, 0, 0, 0))
  {
    PassTakes(er, x.cb);
  }

  lemma BelongsIsDue(ics: Ics, er: bool, frame: nat, x: Word)
    requires ics.Valid(frame) && Belongs(ics, er, x)
    ensures IsDue(ics, er, x)
  {
    OnePass(er, x.s, x.cb);
    PlaceIs(ics, frame, x.sfb, x.w, x.g, x.c, x.cb);
    hide PlaceOf, PassOf, Book;
  }

  lemma DueBelongs(ics: Ics, er: bool, frame: nat, x: Word)
    requires ics.Valid(frame) && IsDue(ics, er, x)
    ensures Belongs(ics, er, x)
  {
    PassTakes(er, x.cb);
    OnePass(er, x.s, x.cb);
    PlaceIs(ics, frame, x.sfb, x.w, x.g, x.c, x.cb);
    assert ics.ValidGroup(x.g, frame);
    hide PlaceOf, PassOf, Book;
  }

  /** In the list the pass counts first, then band, column, group, section and place in the column. */
  lemma ListedInOrder(ics: Ics, er: bool, ws: seq<Word>, p: nat, q: nat)
    requires Complete(ics, er, ws) && p < q < |ws|
    ensures var x, y := ws[p], ws[q];
            && x.s <= y.s
            && (x.s == y.s ==> x.sfb <= y.sfb)
            && (x.s == y.s && x.sfb == y.sfb ==> x.w <= y.w)
            && (x.s == y.s && x.sfb == y.sfb && x.w == y.w ==> x.g <= y.g)
            && (x.s == y.s && x.sfb == y.sfb && x.w == y.w && x.g == y.g ==> x.i <= y.i)
            && (x.s == y.s && x.sfb == y.sfb && x.w == y.w && x.g == y.g && x.i == y.i ==> x.c < y.c)
  {
    hide Belongs;
    assert Earlier(ws[p], ws[q]);
  }

  /** No two codewords of the list share a line of the spectrum, and all lie within the frame. */
  lemma ListedApart(ics: Ics, er: bool, frame: nat, ws: seq<Word>, p: nat, q: nat)
    requires ics.Valid(frame) && Complete(ics, er, ws) && p < q < |ws|
    ensures Apart(ws[p].sp, Width(ws[p].cb), ws[q].sp, Width(ws[q].cb))
    ensures IsSpectral(ws[p].cb) && ws[p].sp + Width(ws[p].cb) <= frame
    ensures ws[p].s <= ws[q].s
  {
    hide Belongs, ics.Valid;
    PlacesApart(ics, er, frame, ws[p], ws[q]);
    InFrame(ics, er, frame, ws[p]);
  }

  lemma InFrame(ics: Ics, er: bool, frame: nat, x: Word)
    requires ics.Valid(frame) && Belongs(ics, er, x)
    ensures IsSpectral(x.cb) && x.sp + Width(x.cb) <= frame
  {
    InsideColumn(ics, er, frame, x);
    var len, q := ics.groups[x.g].len, ics.swb[x.sfb] + 4 * x.w;
    assert ics.ValidGroup(x.g, frame);
    Arith.MulDist(len, q, 4);
    Arith.MulDist(len, q + 4, ics.swb[ics.maxSfb] - (q + 4));
    Arith.MulNonneg(len, ics.swb[ics.maxSfb] - (q + 4));
  }

  // ----- how many codewords there are

  function Lines(at: nat, n: nat): (r: set<int>)
    ensures |r| == n && forall l :: l in r <==> at <= l < at + n
  {
    if n == 0 then {} else Lines(at, n - 1) + {at + n - 1}
  }

  /** The lines of the first n codewords. */
  ghost function Covered(ws: seq<Word>, n: nat): set<int>
    requires n <= |ws|
  {
    if n == 0 then {} else Covered(ws, n - 1) + Lines(ws[n - 1].sp, Width(ws[n - 1].cb))
  }

  lemma {:induction false} CoveredApart(ics: Ics, er: bool, frame: nat, ws: seq<Word>, n: nat, q: nat)
    requires ics.Valid(frame) && Complete(ics, er, ws) && n <= q < |ws|
    ensures Covered(ws, n) !! Lines(ws[q].sp, Width(ws[q].cb))
  {
    hide *;
    CoveredIs(ws, n);
    if n > 0 {
      var a, b := Lines(ws[n - 1].sp, Width(ws[n - 1].cb)), Lines(ws[q].sp, Width(ws[q].cb));
      CoveredApart(ics, er, frame, ws, n - 1, q);
      ListedApart(ics, er, frame, ws, n - 1, q);
      LinesApart(ws[n - 1].sp, Width(ws[n - 1].cb), ws[q].sp, Width(ws[q].cb));
      BothApart(Covered(ws, n - 1), a, b);
    }
  }

  lemma CoveredIs(ws: seq<Word>, n: nat)
    requires n <= |ws|
    ensures n == 0 ==> Covered(ws, n) == {}
    ensures n > 0 ==> Covered(ws, n) == Covered(ws, n - 1) + Lines(ws[n - 1].sp, Width(ws[n - 1].cb))
  {
    hide Lines, Width;
  }

  lemma BothApart(a: set<int>, b: set<int>, c: set<int>)
    requires a !! c && b !! c
    ensures a + b !! c
  {
  }

  lemma {:induction false} CoveredLines(ics: Ics, er: bool, frame: nat, ws: seq<Word>, n: nat)
    requires ics.Valid(frame) && Complete(ics, er, ws) && n <= |ws|
    ensures Covered(ws, n) <= Lines(0, frame) && |Covered(ws, n)| >= 2 * n
  {
    hide Complete, Lines, ics.Valid;
    if n > 0 {
      CoveredLines(ics, er, frame, ws, n - 1);
      ListedInFrame(ics, er, frame, ws, n - 1);
      LinesWithin(ws[n - 1].sp, Width(ws[n - 1].cb), frame);
      CoveredApart(ics, er, frame, ws, n - 1, n - 1);
      Together(Covered(ws, n - 1), Lines(ws[n - 1].sp, Width(ws[n - 1].cb)));
    }
  }

  lemma LinesApart(at: nat, n: nat, b: nat, m: nat)
    requires Apart(at, n, b, m)
    ensures Lines(at, n) !! Lines(b, m)
  {
    hide Lines;
  }

  lemma LinesWithin(at: nat, n: nat, frame: nat)
    requires at + n <= frame
    ensures Lines(at, n) <= Lines(0, frame)
  {
    hide Lines;
  }

  lemma Together(a: set<int>, b: set<int>)
    requires a !! b
    ensures |a + b| == |a| + |b|
  {
  }

  lemma ListedInFrame(ics: Ics, er: bool, frame: nat, ws: seq<Word>, p: nat)
    requires ics.Valid(frame) && Complete(ics, er, ws) && p < |ws|
    ensures IsSpectral(ws[p].cb) && ws[p].sp + Width(ws[p].cb) <= frame
  {
    hide Belongs, ics.Valid;
    InFrame(ics, er, frame, ws[p]);
  }

  /** The codewords never outnumber half the lines: 512 of them are enough for a frame of 1024. */
  lemma CodewordsBound(ics: Ics, er: bool, frame: nat, ws: seq<Word>)
    requires ics.Valid(frame) && Complete(ics, er, ws)
    ensures 2 * |ws| <= frame
  {
    hide Complete, ics.Valid, Covered;
    CoveredLines(ics, er, frame, ws, |ws|);
    Subset(Covered(ws, |ws|), Lines(0, frame));
  }

  lemma Subset(a: set<int>, b: set<int>)
    requires a <= b
    ensures |a| <= |b|
  {
    assert b == a + (b - a);
  }
}
