/**
  What each codebook does, number by number: which ones carry signs, which ones escapes,
  and what the virtual ones accept.
 */
module Codebooks {
  import opened Words
  import opened Codewords
  import opened CodewordsEncode

  /** How many of the values are not zero. */
  function Nonzeros(a: seq<int>): nat {
    if a == [] then 0 else Nonzeros(a[..|a| - 1]) + if a[|a| - 1] == 0 then 0 else 1
  }

  /** Value i with its sign bit: the bits behind the table word belong to the nonzero values in turn. */
  predicate SignedAs(a: seq<int>, vals: seq<int>, s: Bits) {
    && |vals| == |a| && Nonzeros(a) <= |s|
    && forall i :: 0 <= i < |a| ==> SignAt(a, vals, s, i)
  }

  predicate SignAt(a: seq<int>, vals: seq<int>, s: Bits, i: nat)
    requires i < |a| == |vals|
  {
    if a[i] == 0 then vals[i] == 0
    else Nonzeros(a[..i]) < |s| && vals[i] == if s[Nonzeros(a[..i])] then 0 - a[i] else a[i]
  }

  lemma {:induction false} NonzerosGrow(a: seq<int>, i: nat)
    requires i <= |a|
    ensures Nonzeros(a[..i]) <= Nonzeros(a)
    ensures i < |a| && a[i] != 0 ==> Nonzeros(a[..i]) < Nonzeros(a)
  {
    if i < |a| {
      NonzerosGrow(a[..|a| - 1], i);
      assert a[..|a| - 1][..i] == a[..i];
    } else {
      assert a[..i] == a;
    }
  }

  lemma NonzerosNext(a: seq<int>, i: nat)
    requires i < |a|
    ensures Nonzeros(a[..i + 1]) == Nonzeros(a[..i]) + if a[i] == 0 then 0 else 1
  {
    assert a[..i + 1][..i] == a[..i];
  }

  /** From value i on: the values before are as they will stay. */
  lemma {:induction false} SignsAre(a: seq<int>, vals: seq<int>, i: nat, s: Bits, k: nat)
    requires i <= |a| == |vals| && k == Nonzeros(a[..i]) <= |s| && vals[i..] == a[i..]
    requires forall j :: 0 <= j < i ==> SignAt(a, vals, s, j)
    ensures Nonzeros(a[..i]) <= Nonzeros(a)
    ensures |s| < Nonzeros(a) ==> Signs(vals, i, s[k..]) == Short
    ensures |s| >= Nonzeros(a) ==>
              var o := Signs(vals, i, s[k..]); o.Done? && o.n == Nonzeros(a) - k && SignedAs(a, o.vals, s)
    decreases |a| - i
  {
    hide SignAt;
    NonzerosGrow(a, i);
    if i == |a| {
      assert a[..i] == a;
    } else {
      NonzerosNext(a, i);
      assert vals[i] == vals[i..][0] == a[i];
      if a[i] == 0 {
        SignZero(a, vals, s, i);
        OneLess(vals, a, vals, i);
        forall j | 0 <= j < i + 1 ensures SignAt(a, vals, s, j) {
        }
        SignsAre(a, vals, i + 1, s, k);
      } else if k < |s| {
        var v := vals[i := if s[k] then -vals[i] else vals[i]];
        assert s[k..][0] == s[k] && s[k..][1..] == s[k + 1..];
        OneLess(vals, a, v, i);
        forall j | 0 <= j < i + 1 ensures SignAt(a, v, s, j) {
          SignKept(a, vals, v, s, i, j);
        }
        SignsAre(a, v, i + 1, s, k + 1);
      }
    }
  }

  lemma OneLess(vals: seq<int>, a: seq<int>, v: seq<int>, i: nat)
    requires i < |a| == |vals| == |v| && vals[i..] == a[i..] && v == vals[i := v[i]]
    ensures v[i + 1..] == a[i + 1..]
  {
    assert v[i + 1..] == vals[i..][1..];
  }

  lemma SignZero(a: seq<int>, vals: seq<int>, s: Bits, i: nat)
    requires i < |a| == |vals| && a[i] == 0 == vals[i]
    ensures SignAt(a, vals, s, i)
  {
  }

  lemma SignKept(a: seq<int>, vals: seq<int>, v: seq<int>, s: Bits, i: nat, j: nat)
    requires j <= i < |a| == |vals| && Nonzeros(a[..i]) < |s| && vals[i] == a[i] != 0
    requires v == vals[i := if s[Nonzeros(a[..i])] then -vals[i] else vals[i]]
    requires j < i ==> SignAt(a, vals, s, j)
    ensures SignAt(a, v, s, j)
  {
  }

  lemma AllSigns(a: seq<int>, s: Bits)
    ensures if |s| < Nonzeros(a) then Signs(a, 0, s) == Short
            else Signs(a, 0, s).Done? && Signs(a, 0, s).n == Nonzeros(a) && SignedAs(a, Signs(a, 0, s).vals, s)
  {
    assert a[..0] == [] && s[0..] == s;
    SignsAre(a, a, 0, s, 0);
  }

  // ----- the tables

  /** Seven tables are looked up in two steps, four are binary trees. */
  lemma WhichTables(t: Tables, cb: nat)
    requires WellFormed(t) && 1 <= cb <= 11
    ensures cb in t && (t[cb].Binary? <==> cb == 3 || cb == 5 || cb == 7 || cb == 9)
  {
    hide PrefixTwoStep, ForwardTree;
    assert WellFormedBook(t[cb], cb);
  }

  /** The first n bits are an index; where they do not settle the word, so are the next ones. */
  lemma TwoStepWord(b: Book, cb: nat, c: nat, e: nat, rest: Bits)
    requires b.TwoStep? && WellFormedBook(b, cb) && c < |b.first|
    requires b.first[c].extra > 0 ==> e < Pow2(b.first[c].extra)
    ensures var f := b.first[c]; var k := f.offset + if f.extra == 0 then 0 else e;
            && k < |b.second|
            && Lookup(b, cb, Low(c, b.n) + (if f.extra == 0 then [] else Low(e, f.extra)) + rest)
            == Done(b.second[k].vals, b.second[k].bits)
  {
    var f := b.first[c];
    var x := if f.extra == 0 then [] else Low(e, f.extra);
    var s := Low(c, b.n) + x + rest;
    IndexOfLow(c, b.n, x + rest);
    assert s == Low(c, b.n) + (x + rest);
    if f.extra > 0 {
      IndexOfLow(e, f.extra, rest);
      assert Drop(s, b.n) == x + rest;
    }
    EntryBits(b, s);
    hide Index, Low, Scale;
  }

  lemma IndexOfLow(c: nat, n: nat, rest: Bits)
    requires c < Pow2(n)
    ensures Index(Low(c, n) + rest, n) == c
  {
    var s := Low(c, n) + rest;
    assert Padded(s, n) == Low(c, n);
    LowInjective(Index(s, n), c, n);
  }

  /** A clear bit leads to the first branch of a node, a set one to the second. */
  lemma TreeWord(nodes: seq<Node>, w: nat, o: nat, bit: bool, rest: Bits)
    requires w >= 2 && ForwardTree(nodes, w) && o < |nodes|
    ensures WalkTree(nodes, w, o, if nodes[o].isLeaf then rest else [bit] + rest)
         == if nodes[o].isLeaf then Done(nodes[o].data, 0)
            else if bit then Advance(WalkTree(nodes, w, o + nodes[o].data[1], rest), 1)
            else Advance(WalkTree(nodes, w, o + nodes[o].data[0], rest), 1)
  {
    assert ([bit] + rest)[1..] == rest;
  }

  // ----- the codebooks without escapes

  /** Codebooks 1, 2, 5 and 6: the table holds the values with their signs. */
  lemma PlainBooks(t: Tables, cb: nat, s: Bits)
    requires WellFormed(t) && (cb == 1 || cb == 2 || cb == 5 || cb == 6)
    ensures WellFormedBook(t[cb], cb) && Decode(t, cb, s) == Lookup(t[cb], cb, s)
    ensures Decode(t, cb, s).Done? ==> |Decode(t, cb, s).vals| == if cb <= 2 then 4 else 2
  {
    hide Lookup, WellFormedBook;
  }

  /** Codebooks 3, 4 and 7 to 10: the table word is followed by one bit for each value that is not zero. */
  lemma SignedBooks(t: Tables, cb: nat, s: Bits)
    requires WellFormed(t) && (cb == 3 || cb == 4 || cb == 7 || cb == 8 || cb == 9 || cb == 10)
    ensures WellFormedBook(t[cb], cb)
    ensures var a, o := Lookup(t[cb], cb, s), Decode(t, cb, s);
            if !a.Done? then o == a
            else if |s| - a.n < Nonzeros(a.vals) then o == Short
            else o.Done? && o.n == a.n + Nonzeros(a.vals) && SignedAs(a.vals, o.vals, s[a.n..])
                 && |o.vals| == if cb <= 4 then 4 else 2
  {
    hide Lookup, WellFormedBook, Signs, SignedAs;
    var a := Lookup(t[cb], cb, s);
    if a.Done? {
      AllSigns(a.vals, s[a.n..]);
    }
  }

  // ----- the codebooks with escapes

  /**
    Codebooks 11 and 16 to 31 share book 11: sign bits, then an escape for each 16; a pair
    beyond the bound of a virtual codebook becomes zero.
   */
  lemma EscapeBooks(t: Tables, cb: nat, s: Bits)
    requires WellFormed(t) && (cb == 11 || 16 <= cb <= 31)
    ensures WellFormedBook(t[11], 11)
    ensures var a, o := Lookup(t[11], 11, s), Decode(t, cb, s);
            if !a.Done? then o == a
            else if |s| - a.n < Nonzeros(a.vals) then o == Short
            else
              |a.vals| == 2 &&
              exists v: seq<int> :: SignedAs(a.vals, v, s[a.n..]) && PairOf(cb, v, s[a.n + Nonzeros(a.vals)..], o, a.n + Nonzeros(a.vals))
  {
    hide Lookup, WellFormedBook, Signs, SignedAs, Escape, CheckLav;
    var a := Lookup(t[11], 11, s);
    if a.Done? {
      AllSigns(a.vals, s[a.n..]);
      if |s| - a.n >= Nonzeros(a.vals) {
        PairDecodes(t, cb, s, a, Signs(a.vals, 0, s[a.n..]));
      }
    }
  }

  lemma PairDecodes(t: Tables, cb: nat, s: Bits, a: Outcome, b: Outcome)
    requires WellFormed(t) && (cb == 11 || 16 <= cb <= 31)
    requires WellFormedBook(t[11], 11) && a == Lookup(t[11], 11, s) && a.Done?
    requires b == Signs(a.vals, 0, s[a.n..]) && b.Done?
    ensures PairOf(cb, b.vals, s[a.n + b.n..], Decode(t, cb, s), a.n + b.n)
  {
    hide Lookup, WellFormedBook, Signs, Escape, CheckLav;
    var c := Escaped(cb, b.vals, s[a.n + b.n..]);
    assert Decode(t, cb, s) == if !c.Done? then c else Done(CheckLav(cb, c.vals), a.n + b.n + c.n);
    if c.Done? {
      BoundChecked(cb, c.vals);
    }
  }

  lemma BoundChecked(cb: nat, v: seq<int>)
    requires |v| == 2
    ensures 16 <= cb <= 31 ==> CheckLav(cb, v) == if Within(cb, v[0]) && Within(cb, v[1]) then v else [0, 0]
    ensures cb == 11 ==> CheckLav(cb, v) == v
  {
  }

  /**
    An escape with k ones: C leaves its shifts undefined for more than 28 of them, for 28 with
    nothing behind, and for 27 or 28 with all bits there. Otherwise it takes k + 4 bits behind its zero.
   */
  lemma EscapeCases(negative: bool, k: nat, rest: Bits)
    ensures Escape(if negative then -16 else 16, Times(k)) == Short
    ensures var o := Escape(if negative then -16 else 16, Times(k) + [false] + rest);
            && (o.Wild? <==> k > 28 || (k == 28 && rest == []) || (k >= 27 && |rest| >= k + 4))
            && (o.Short? <==> !o.Wild? && |rest| < k + 4)
            && (o.Done? ==> o.n == 2 * k + 5)
  {
    OnesAtLeast(Times(k), k);
    OnesFirst(k, rest);
    hide Value, Scale, Ones;
  }

  /** Two escapes in turn, k bits before them, and the check of a virtual codebook. */
  predicate PairOf(cb: nat, v: seq<int>, s: Bits, o: Outcome, k: nat) {
    && |v| == 2
    && var x := Escape(v[0], s);
       if !x.Done? then o == x
       else
         var y := Escape(v[1], s[x.n..]);
         if !y.Done? then o == y
         else
           && o.Done? && o.n == k + (x.n + y.n)
           && (cb == 11 ==> o.vals == [x.vals[0], y.vals[0]])
           && (cb != 11 ==> o.vals == if Within(cb, x.vals[0]) && Within(cb, y.vals[0]) then [x.vals[0], y.vals[0]] else [0, 0])
  }

  /** The bound of a virtual codebook: 16, or the last value before one that needs more. */
  predicate Within(cb: nat, v: int) {
    0 - Lav(cb) <= v <= Lav(cb)
  }

  /** The bounds in full, from book 16 on. */
  lemma Bounds()
    ensures seq(16, (k: nat) => Lav(16 + k))
         == [16, 31, 47, 63, 95, 127, 159, 191] + [223, 255, 319, 383, 511, 767, 1023, 2047]
  {
  }

  /** No value beyond its bound leaves a virtual codebook. */
  lemma VirtualBound(t: Tables, cb: nat, s: Bits, i: nat)
    requires WellFormed(t) && 16 <= cb <= 31 && Decode(t, cb, s).Done? && i < 2
    ensures |Decode(t, cb, s).vals| == 2 && 0 - Lav(cb) <= Decode(t, cb, s).vals[i] <= Lav(cb)
  {
    hide Lookup, WellFormedBook, Signs, Escape;
  }
}
