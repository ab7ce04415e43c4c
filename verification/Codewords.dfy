/**
  What one spectral codeword means: a prefix code looked up in a table, then
  sign bits, then escapes. Defined on lists of bits, independently of where the
  two decoders read them from. The tables are parameters; `WellFormed` says
  what makes one a prefix code.
 */
module Codewords {
  import opened Words

  /** First-step table entry (`hcb`), second-step entry, and node of a binary table. */
  datatype First = First(offset: nat, extra: nat)
  datatype Second = Second(bits: nat, vals: seq<int>)
  datatype Node = Node(isLeaf: bool, data: seq<int>)

  datatype Book =
    | TwoStep(n: nat, first: seq<First>, second: seq<Second>)
    | Binary(nodes: seq<Node>)

  type Tables = map<nat, Book>

  /** A decoded codeword of n bits, too few bits to tell, or an escape whose shifts C leaves undefined. */
  datatype Outcome = Done(vals: seq<int>, n: nat) | Short | Wild

  function Advance(o: Outcome, k: nat): Outcome {
    if o.Done? then Done(o.vals, o.n + k) else o
  }

  // ----- which book a codebook number uses

  predicate IsTwoStep(cb: nat) {
    cb == 1 || cb == 2 || cb == 4 || cb == 6 || cb == 8 || cb == 10 || cb == 11
  }

  predicate IsBinary(cb: nat) {
    cb == 3 || cb == 5 || cb == 7 || cb == 9
  }

  /** Codebooks 16 to 31 are virtual: they use book 11. */
  predicate IsSpectral(cb: nat) {
    1 <= cb <= 11 || 16 <= cb <= 31
  }

  function BookNumber(cb: nat): nat {
    if cb >= 16 then 11 else cb
  }

  function Width(cb: nat): (w: nat)
    ensures w == 2 || w == 4
  {
    if cb < 5 then 4 else 2
  }

  /** `unsigned_cb`: sign bits follow the codeword. */
  predicate HasSigns(cb: nat) {
    cb == 3 || cb == 4 || cb >= 7
  }

  predicate HasEscapes(cb: nat) {
    cb == 11 || cb >= 16
  }

  // ----- prefix tables

  ghost predicate SamePrefix(c: nat, d: nat, n: nat, bits: nat) {
    bits <= n && Low(c, n)[..bits] == Low(d, n)[..bits]
  }

  /** A first-step entry that settles the codeword within n bits. */
  ghost predicate SettledEntry(b: Book, c: nat)
    requires b.TwoStep? && c < |b.first|
  {
    var f := b.first[c];
    && f.extra == 0 && f.offset < |b.second|
    && 1 <= b.second[f.offset].bits <= b.n
  }

  /** Second-step entry number e of x extra bits, for a codeword longer than n bits. */
  ghost predicate ExtraEntry(b: Book, offset: nat, x: nat, e: nat)
    requires b.TwoStep?
  {
    offset + e < |b.second| && b.n < b.second[offset + e].bits <= b.n + x
  }

  ghost predicate SameExtra(b: Book, offset: nat, x: nat, e: nat, e': nat)
    requires b.TwoStep? && ExtraEntry(b, offset, x, e)
  {
    SamePrefix(e, e', x, b.second[offset + e].bits - b.n) ==>
      offset + e' < |b.second| && b.second[offset + e'] == b.second[offset + e]
  }

  /** A first-step entry that needs `extra` further bits. */
  ghost predicate ExtendedEntry(b: Book, c: nat)
    requires b.TwoStep? && c < |b.first|
  {
    var f := b.first[c];
    && 0 < f.extra <= 16
    && (forall e: nat :: e < Pow2(f.extra) ==> ExtraEntry(b, f.offset, f.extra, e))
    && (forall e: nat, e': nat :: e < Pow2(f.extra) && e' < Pow2(f.extra) ==> SameExtra(b, f.offset, f.extra, e, e'))
  }

  ghost predicate PrefixTwoStep(b: Book)
    requires b.TwoStep?
  {
    && b.n <= 16 && |b.first| == Pow2(b.n)
    && (forall c :: 0 <= c < |b.first| ==> SettledEntry(b, c) || ExtendedEntry(b, c))
    && (forall c: nat, c': nat ::
          c < |b.first| && c' < |b.first| && SettledEntry(b, c) &&
          SamePrefix(c, c', b.n, b.second[b.first[c].offset].bits) ==>
            SettledEntry(b, c') && b.second[b.first[c'].offset] == b.second[b.first[c].offset])
  }

  predicate ForwardTree(nodes: seq<Node>, w: nat) {
    && 0 < |nodes|
    && (forall o :: 0 <= o < |nodes| ==> |nodes[o].data| == w)
    && !nodes[0].isLeaf
    && (forall o, b :: 0 <= o < |nodes| && !nodes[o].isLeaf && 0 <= b < 2 && 2 <= w ==>
          0 < nodes[o].data[b] < |nodes| - o)
  }

  ghost predicate WellFormedBook(b: Book, cb: nat) {
    match b
    case TwoStep(n, first, second) =>
      IsTwoStep(cb) && PrefixTwoStep(b) && forall i :: 0 <= i < |second| ==> |second[i].vals| == Width(cb)
    case Binary(nodes) => IsBinary(cb) && ForwardTree(nodes, Width(cb))
  }

  ghost predicate WellFormed(t: Tables) {
    forall cb :: 1 <= cb <= 11 ==> cb in t && WellFormedBook(t[cb], cb)
  }

  // ----- table lookup

  function Drop(s: Bits, n: nat): Bits {
    if n <= |s| then s[n..] else []
  }

  lemma ValueIndex(s: Bits)
    ensures Value(s) < Pow2(|s|) && Low(Value(s), |s|) == s
  {
    ValueBelow(s);
    LowOfValue(s);
  }

  /** Where the next n bits index a table of 2^n entries. */
  function Index(s: Bits, n: nat): (i: nat)
    ensures i < Pow2(n) && Low(i, n) == Padded(s, n)
  {
    ValueIndex(Padded(s, n));
    Value(Padded(s, n))
  }

  function EntryIndex(b: Book, s: Bits): (i: nat)
    requires b.TwoStep? && PrefixTwoStep(b)
    ensures i < |b.second|
  {
    var f := b.first[Index(s, b.n)];
    if f.extra == 0 then f.offset
    else
      var e := Index(Drop(s, b.n), f.extra);
      assert ExtraEntry(b, f.offset, f.extra, e);
      f.offset + e
  }

  lemma EntryBits(b: Book, s: Bits)
    requires b.TwoStep? && PrefixTwoStep(b)
    ensures var e := b.second[EntryIndex(b, s)]; var f := b.first[Index(s, b.n)];
            if f.extra == 0 then 1 <= e.bits <= b.n else b.n < e.bits <= b.n + f.extra
  {
    hide Index, Drop;
    var c := Index(s, b.n);
    var f := b.first[c];
    assert SettledEntry(b, c) || ExtendedEntry(b, c);
    if f.extra > 0 {
      assert ExtraEntry(b, f.offset, f.extra, Index(Drop(s, b.n), f.extra));
    }
  }

  function WalkTree(nodes: seq<Node>, w: nat, o: nat, s: Bits): (r: Outcome)
    requires w >= 2 && ForwardTree(nodes, w) && o < |nodes|
    ensures r.Done? ==> r.n <= |s| && |r.vals| == w
    decreases |nodes| - o
  {
    if nodes[o].isLeaf then Done(nodes[o].data, 0)
    else if s == [] then Short
    else Advance(WalkTree(nodes, w, o + nodes[o].data[if s[0] then 1 else 0], s[1..]), 1)
  }

  function Lookup(b: Book, cb: nat, s: Bits): (r: Outcome)
    requires WellFormedBook(b, cb)
    ensures r.Done? ==> 0 < r.n <= |s| && |r.vals| == Width(cb)
  {
    match b
    case TwoStep(n, first, second) =>
      EntryBits(b, s);
      var e := second[EntryIndex(b, s)];
      if e.bits <= |s| then Done(e.vals, e.bits) else Short
    case Binary(nodes) => WalkTree(nodes, Width(cb), 0, s)
  }

  // ----- signs and escapes

  /** One sign bit for every nonzero value from index i on. */
  function Signs(vals: seq<int>, i: nat, s: Bits): (r: Outcome)
    requires i <= |vals|
    ensures r.Done? ==> r.n <= |s| && |r.vals| == |vals|
    decreases |vals| - i
  {
    if i == |vals| then Done(vals, 0)
    else if vals[i] == 0 then Signs(vals, i + 1, s)
    else if s == [] then Short
    else Advance(Signs(vals[i := if s[0] then -vals[i] else vals[i]], i + 1, s[1..]), 1)
  }

  function Ones(s: Bits): (k: nat)
    ensures k <= |s| && (forall i :: 0 <= i < k ==> s[i]) && (k < |s| ==> !s[k])
  {
    if s == [] || !s[0] then 0 else 1 + Ones(s[1..])
  }

  /** The conversion to `int16_t`. */
  function Wrap16(x: int): (r: int)
    ensures -0x8000 <= r < 0x8000 && (r == x <==> -0x8000 <= x < 0x8000)
  {
    (x + 0x8000) % 0x1_0000 - 0x8000
  }

  /**
    After k ones and a zero, with `left` bits behind them: whether reading k + 4 bits, or
    shifting a one by k + 4, is undefined. No more than 32 bits can be shown at once, not
    32 when none is left, and `1 << 31` is reached only if the bits are there.
   */
  predicate ShiftUndefined(k: nat, left: nat) {
    k + 4 > 32 || (k + 4 == 32 && left == 0) || (k + 4 > 30 && left >= k + 4)
  }

  /**
    An escape: k ones, a zero, then k + 4 bits of the value below its leading one, which
    lands in 16 bits.
   */
  function Escape(v: int, s: Bits): (r: Outcome)
    ensures r.Done? ==> r.n <= |s| && |r.vals| == 1
  {
    if v != 16 && v != -16 then Done([v], 0)
    else
      var k := Ones(s);
      if k == |s| then Short
      else if ShiftUndefined(k, |s| - k - 1) then Wild
      else if |s| < 2 * k + 5 then Short
      else
        var m := Pow2(k + 4) + Value(s[k + 1..][..k + 4]);
        Done([Wrap16(if v < 0 then -m else m)], 2 * k + 5)
  }

  function Escapes(vals: seq<int>, s: Bits): (r: Outcome)
    requires |vals| == 2
    ensures r.Done? ==> r.n <= |s| && |r.vals| == 2
  {
    var a := Escape(vals[0], s);
    if !a.Done? then a
    else
      var b := Escape(vals[1], s[a.n..]);
      if !b.Done? then b else Done(a.vals + b.vals, a.n + b.n)
  }

  /** `vcb11_LAV_tab[]`, the largest absolute value of a virtual codebook. */
  function Lav(cb: nat): nat {
    match cb
    case 16 => 16
    case 17 => 31
    case 18 => 47
    case 19 => 63
    case 20 => 95
    case 21 => 127
    case 22 => 159
    case 23 => 191
    case 24 => 223
    case 25 => 255
    case 26 => 319
    case 27 => 383
    case 28 => 511
    case 29 => 767
    case 30 => 1023
    case 31 => 2047
    case _ => 0
  }

  function Abs(v: int): int {
    if v < 0 then -v else v
  }

  /** `vcb11_check_LAV` */
  function CheckLav(cb: nat, vals: seq<int>): (r: seq<int>)
    requires HasEscapes(cb) ==> |vals| == 2
    ensures |r| == |vals|
  {
    if 16 <= cb <= 31 && (Abs(vals[0]) > Lav(cb) || Abs(vals[1]) > Lav(cb)) then [0, 0] else vals
  }

  function Signed(cb: nat, vals: seq<int>, s: Bits): (r: Outcome)
    ensures r.Done? ==> r.n <= |s| && |r.vals| == |vals|
  {
    if HasSigns(cb) then Signs(vals, 0, s) else Done(vals, 0)
  }

  function Escaped(cb: nat, vals: seq<int>, s: Bits): (r: Outcome)
    requires |vals| == Width(cb)
    ensures r.Done? ==> r.n <= |s| && |r.vals| == |vals|
  {
    if HasEscapes(cb) then Escapes(vals, s) else Done(vals, 0)
  }

  /** The codeword at the front of s. */
  function Decode(t: Tables, cb: nat, s: Bits): (r: Outcome)
    requires WellFormed(t) && IsSpectral(cb)
    ensures r.Done? ==> 0 < r.n <= |s| && |r.vals| == Width(cb)
  {
    var a := Lookup(t[BookNumber(cb)], BookNumber(cb), s);
    if !a.Done? then a
    else
      var b := Signed(cb, a.vals, s[a.n..]);
      if !b.Done? then b
      else
        var c := Escaped(cb, b.vals, s[a.n + b.n..]);
        if !c.Done? then c else Done(CheckLav(cb, c.vals), a.n + b.n + c.n)
  }

  // ----- the code is a prefix code

  /** s' has the bits of the codeword that o found in s. */
  ghost predicate Decides(o: Outcome, s: Bits, s': Bits) {
    o.Done? && o.n <= |s| && o.n <= |s'| && s'[..o.n] == s[..o.n]
  }

  /** Two lists that share the bits of an entry find that entry. */
  lemma EntryLocal(b: Book, s: Bits, s': Bits)
    requires b.TwoStep? && PrefixTwoStep(b)
    requires var n := b.second[EntryIndex(b, s)].bits; n <= |s| && n <= |s'| && s[..n] == s'[..n]
    ensures b.second[EntryIndex(b, s')] == b.second[EntryIndex(b, s)]
  {
    var c, c' := Index(s, b.n), Index(s', b.n);
    var e := b.second[EntryIndex(b, s)];
    EntryBits(b, s);
    if b.first[c].extra == 0 {
      PaddedPrefix(s, s', b.n, e.bits);
      assert SamePrefix(c, c', b.n, e.bits);
    } else {
      var p, p' := Padded(s, b.n), Padded(s', b.n);
      assert s[..b.n] == s[..e.bits][..b.n] && s'[..b.n] == s'[..e.bits][..b.n];
      PaddedPrefix(s, s', b.n, b.n);
      assert p == p[..b.n] && p' == p'[..b.n];
      LowInjective(c, c', b.n);
      ExtraLocal(b, c, s, s');
    }
  }

  lemma ExtraLocal(b: Book, c: nat, s: Bits, s': Bits)
    requires b.TwoStep? && PrefixTwoStep(b)
    requires c == Index(s, b.n) == Index(s', b.n) && b.first[c].extra > 0
    requires var n := b.second[EntryIndex(b, s)].bits; n <= |s| && n <= |s'| && s[..n] == s'[..n]
    ensures b.second[EntryIndex(b, s')] == b.second[EntryIndex(b, s)]
  {
    hide Index, Padded, Low, Scale, Value;
    var f := b.first[c];
    var d, d' := Drop(s, b.n), Drop(s', b.n);
    var e, e' := Index(d, f.extra), Index(d', f.extra);
    assert ExtraEntry(b, f.offset, f.extra, e);
    var n := b.second[f.offset + e].bits;
    PrefixDrop(s, s', b.n, n);
    PaddedPrefix(d, d', f.extra, n - b.n);
    assert SamePrefix(e, e', f.extra, n - b.n);
    assert SameExtra(b, f.offset, f.extra, e, e');
  }

  lemma LowInjective(x: nat, y: nat, n: nat)
    requires x < Pow2(n) && y < Pow2(n) && Low(x, n) == Low(y, n)
    ensures x == y
  {
    ValueOfLow(x, n);
    ValueOfLow(y, n);
  }

  lemma LookupTwoStepLocal(b: Book, cb: nat, s: Bits, s': Bits)
    requires WellFormedBook(b, cb) && b.TwoStep? && Decides(Lookup(b, cb, s), s, s')
    ensures Lookup(b, cb, s') == Lookup(b, cb, s)
  {
    EntryLocal(b, s, s');
  }

  lemma PrefixDrop(s: Bits, s': Bits, n: nat, k: nat)
    requires n <= k <= |s| && k <= |s'| && s[..k] == s'[..k]
    ensures Drop(s, n)[..k - n] == Drop(s', n)[..k - n]
  {
    assert s[n..][..k - n] == s[..k][n..] && s'[n..][..k - n] == s'[..k][n..];
  }

  lemma PaddedPrefix(s: Bits, s': Bits, n: nat, k: nat)
    requires k <= n && k <= |s| && k <= |s'| && s[..k] == s'[..k]
    ensures Padded(s, n)[..k] == Padded(s', n)[..k]
  {
    forall j | 0 <= j < k ensures Padded(s, n)[j] == Padded(s', n)[j] {
      assert s[..k][j] == s'[..k][j];
    }
  }

  lemma {:induction false} WalkTreeLocal(nodes: seq<Node>, w: nat, o: nat, s: Bits, s': Bits)
    requires w >= 2 && ForwardTree(nodes, w) && o < |nodes| && Decides(WalkTree(nodes, w, o, s), s, s')
    ensures WalkTree(nodes, w, o, s') == WalkTree(nodes, w, o, s)
    decreases |nodes| - o
  {
    if !nodes[o].isLeaf {
      HeadAndTail(WalkTree(nodes, w, o + nodes[o].data[if s[0] then 1 else 0], s[1..]), s, s');
      WalkTreeLocal(nodes, w, o + nodes[o].data[if s[0] then 1 else 0], s[1..], s'[1..]);
    }
  }

  /** Taking the first bit off both lists. */
  lemma HeadAndTail(o: Outcome, s: Bits, s': Bits)
    requires s != [] && Decides(Advance(o, 1), s, s')
    ensures s' != [] && s'[0] == s[0] && Decides(o, s[1..], s'[1..])
  {
    PrefixDrop(s, s', 1, o.n + 1);
    assert s[..o.n + 1][0] == s'[..o.n + 1][0];
  }

  lemma {:induction false} SignsLocal(vals: seq<int>, i: nat, s: Bits, s': Bits)
    requires i <= |vals| && Decides(Signs(vals, i, s), s, s')
    ensures Signs(vals, i, s') == Signs(vals, i, s)
    decreases |vals| - i
  {
    if i < |vals| {
      if vals[i] == 0 {
        SignsLocal(vals, i + 1, s, s');
      } else {
        var v := vals[i := if s[0] then -vals[i] else vals[i]];
        HeadAndTail(Signs(v, i + 1, s[1..]), s, s');
        SignsLocal(v, i + 1, s[1..], s'[1..]);
      }
    }
  }

  lemma OnesAtLeast(s: Bits, k: nat)
    requires k <= |s| && forall i :: 0 <= i < k ==> s[i]
    ensures Ones(s) >= k && (k == |s| ==> Ones(s) == k)
  {
  }

  lemma OnesExactly(s: Bits, k: nat)
    requires k < |s| && !s[k] && forall i :: 0 <= i < k ==> s[i]
    ensures Ones(s) == k
  {
    OnesAtLeast(s, k);
  }

  lemma SliceOfPrefix(s: Bits, a: nat, n: nat)
    requires a <= n <= |s|
    ensures s[a..][..n - a] == s[..n][a..]
  {
  }

  lemma EscapeLocal(v: int, s: Bits, s': Bits)
    requires Decides(Escape(v, s), s, s')
    ensures Escape(v, s') == Escape(v, s)
  {
    if v == 16 || v == -16 {
      var k := Ones(s);
      var n := 2 * k + 5;
      forall i | 0 <= i < n ensures s'[i] == s[i] {
        assert s'[..n][i] == s[..n][i];
      }
      OnesExactly(s', k);
      SliceOfPrefix(s, k + 1, n);
      SliceOfPrefix(s', k + 1, n);
    }
  }

  /** If the whole needs the first a.n + n bits, the rest needs n bits after the first a.n. */
  lemma DecidesRest(a: nat, o: Outcome, s: Bits, s': Bits)
    requires Decides(Advance(o, a), s, s')
    ensures a <= |s| && a <= |s'| && s'[..a] == s[..a] && Decides(o, s[a..], s'[a..])
  {
    PrefixDrop(s, s', a, a + o.n);
    assert s[..a] == s[..a + o.n][..a] && s'[..a] == s'[..a + o.n][..a];
  }

  lemma EscapesLocal(vals: seq<int>, s: Bits, s': Bits)
    requires |vals| == 2 && Decides(Escapes(vals, s), s, s')
    ensures Escapes(vals, s') == Escapes(vals, s)
  {
    var a := Escape(vals[0], s);
    var b := Escape(vals[1], s[a.n..]);
    DecidesRest(a.n, b, s, s');
    EscapeLocal(vals[0], s, s');
    EscapeLocal(vals[1], s[a.n..], s'[a.n..]);
  }

  lemma LookupLocal(b: Book, cb: nat, s: Bits, s': Bits)
    requires WellFormedBook(b, cb) && Decides(Lookup(b, cb, s), s, s')
    ensures Lookup(b, cb, s') == Lookup(b, cb, s)
  {
    match b
    case TwoStep(_, _, _) => LookupTwoStepLocal(b, cb, s, s');
    case Binary(nodes) => WalkTreeLocal(nodes, Width(cb), 0, s, s');
  }

  /** What a codeword decodes to depends on nothing but its own bits. */
  lemma DecodeLocal(t: Tables, cb: nat, s: Bits, s': Bits)
    requires WellFormed(t) && IsSpectral(cb) && Decides(Decode(t, cb, s), s, s')
    ensures Decode(t, cb, s') == Decode(t, cb, s)
  {
    hide Lookup, Signs, Escapes, Escape, WalkTree, EntryIndex, WellFormedBook;
    var book, n := t[BookNumber(cb)], BookNumber(cb);
    var a := Lookup(book, n, s);
    var b := Signed(cb, a.vals, s[a.n..]);
    var k := a.n + b.n;
    var c := Escaped(cb, b.vals, s[k..]);
    DecidesRest(k, c, s, s');
    DecidesRest(a.n, b, s, s');
    LookupLocal(book, n, s, s');
    if HasSigns(cb) {
      SignsLocal(a.vals, 0, s[a.n..], s'[a.n..]);
    }
    if HasEscapes(cb) {
      EscapesLocal(b.vals, s[k..], s'[k..]);
    }
  }

  /** A codeword is recognised whatever follows it. */
  lemma CodewordDecodes(t: Tables, cb: nat, w: Bits, rest: Bits)
    requires WellFormed(t) && IsSpectral(cb)
    requires Decode(t, cb, w).Done? && Decode(t, cb, w).n == |w|
    ensures Decode(t, cb, w + rest) == Decode(t, cb, w)
  {
    assert (w + rest)[..|w|] == w;
    DecodeLocal(t, cb, w, w + rest);
  }

  lemma EscapeTame(v: int, s: Bits, s': Bits)
    requires s <= s' && Escape(v, s').Done?
    ensures !Escape(v, s).Wild?
  {
    if Escape(v, s).Wild? {
      OnesExactly(s', Ones(s));
    }
  }

  lemma EscapesTame(vals: seq<int>, s: Bits, s': Bits)
    requires |vals| == 2 && s <= s' && Escapes(vals, s').Done?
    ensures !Escapes(vals, s).Wild?
  {
    hide Escape;
    EscapeTame(vals[0], s, s');
    var a := Escape(vals[0], s);
    if a.Done? {
      PrefixRest(s, s', a.n);
      EscapeLocal(vals[0], s, s');
      EscapeTame(vals[1], s[a.n..], s'[a.n..]);
    }
  }

  lemma PrefixRest(s: Bits, s': Bits, n: nat)
    requires s <= s' && n <= |s|
    ensures s'[..n] == s[..n] && s[n..] <= s'[n..]
  {
    assert s == s'[..|s|];
  }

  /** What begins a codeword has no escape with undefined shifts. */
  lemma DecodeTame(t: Tables, cb: nat, s: Bits, s': Bits)
    requires WellFormed(t) && IsSpectral(cb) && s <= s' && Decode(t, cb, s').Done?
    ensures !Decode(t, cb, s).Wild?
  {
    hide Lookup, Signs, Escapes, Escape, WalkTree, EntryIndex, WellFormedBook;
    var book, n := t[BookNumber(cb)], BookNumber(cb);
    var a := Lookup(book, n, s);
    LookupTame(book, n, s);
    if a.Done? {
      PrefixRest(s, s', a.n);
      LookupLocal(book, n, s, s');
      SignedTame(cb, a.vals, s[a.n..], s'[a.n..]);
      var b := Signed(cb, a.vals, s[a.n..]);
      if b.Done? && HasEscapes(cb) {
        PrefixRest(s, s', a.n + b.n);
        EscapesTame(b.vals, s[a.n + b.n..], s'[a.n + b.n..]);
      }
    }
  }

  lemma LookupTame(b: Book, cb: nat, s: Bits)
    requires WellFormedBook(b, cb)
    ensures !Lookup(b, cb, s).Wild?
  {
    match b
    case TwoStep(_, _, _) =>
    case Binary(nodes) => WalkTame(nodes, Width(cb), 0, s);
  }

  lemma {:induction false} WalkTame(nodes: seq<Node>, w: nat, o: nat, s: Bits)
    requires w >= 2 && ForwardTree(nodes, w) && o < |nodes|
    ensures !WalkTree(nodes, w, o, s).Wild?
    decreases |nodes| - o
  {
    if !nodes[o].isLeaf && s != [] {
      WalkTame(nodes, w, o + nodes[o].data[if s[0] then 1 else 0], s[1..]);
    }
  }

  lemma SignedTame(cb: nat, vals: seq<int>, s: Bits, s': Bits)
    requires s <= s'
    ensures !Signed(cb, vals, s).Wild?
    ensures Signed(cb, vals, s).Done? ==> Signed(cb, vals, s') == Signed(cb, vals, s)
  {
    if HasSigns(cb) {
      SignsTame(vals, 0, s);
      if Signs(vals, 0, s).Done? {
        PrefixRest(s, s', Signs(vals, 0, s).n);
        SignsLocal(vals, 0, s, s');
      }
    }
  }

  lemma {:induction false} SignsTame(vals: seq<int>, i: nat, s: Bits)
    requires i <= |vals|
    ensures !Signs(vals, i, s).Wild?
    decreases |vals| - i
  {
    if i < |vals| {
      if vals[i] == 0 {
        SignsTame(vals, i + 1, s);
      } else if s != [] {
        SignsTame(vals[i := if s[0] then -vals[i] else vals[i]], i + 1, s[1..]);
      }
    }
  }

  /** A proper prefix of a codeword is never taken for a codeword. */
  lemma ProperPrefixIsShort(t: Tables, cb: nat, w: Bits, k: nat)
    requires WellFormed(t) && IsSpectral(cb)
    requires Decode(t, cb, w).Done? && Decode(t, cb, w).n == |w| && k < |w|
    ensures Decode(t, cb, w[..k]) == Short
  {
    var p := w[..k];
    var o := Decode(t, cb, p);
    if o.Done? {
      assert w[..o.n] == p[..o.n];
      DecodeLocal(t, cb, p, w);
    }
    DecodeTame(t, cb, p, w);
  }
}
