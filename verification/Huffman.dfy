/**
  `huffman_spectral_data`: the spectral codeword decoder on a bit file. Its
  stream never ends (zeros follow the buffer), so it has no way to give up; it
  is specified for streams on which a codeword is next.
 */
module Huffman {
  import opened Words
  import opened BitReader
  import opened Codewords

  /** Moving on by k bits drops the first k of the bits ahead. */
  lemma StreamDrop(buffer: seq<Byte>, p: nat, n: nat, k: nat)
    requires k <= n
    ensures Stream(buffer, p, n)[k..] == Stream(buffer, p + k, n - k)
    ensures Stream(buffer, p, n)[..k] == Stream(buffer, p, k)
  {
    forall j | 0 <= j < n - k ensures Stream(buffer, p, n)[k..][j] == Stream(buffer, p + k, n - k)[j] {
      assert p + (k + j) == (p + k) + j;
    }
  }

  /** Looking further ahead does not change a codeword that is already decided. */
  lemma DecodeFurther(t: Tables, cb: nat, buffer: seq<Byte>, p: nat, m: nat, n: nat)
    requires WellFormed(t) && IsSpectral(cb) && m <= n && Decode(t, cb, Stream(buffer, p, m)).Done?
    ensures Decode(t, cb, Stream(buffer, p, n)) == Decode(t, cb, Stream(buffer, p, m))
  {
    var s, s' := Stream(buffer, p, m), Stream(buffer, p, n);
    var k := Decode(t, cb, s).n;
    StreamDrop(buffer, p, m, k);
    StreamDrop(buffer, p, n, k);
    DecodeLocal(t, cb, s, s');
  }

  method Store(sp: array<int>, vals: seq<int>)
    requires |vals| <= sp.Length
    modifies sp
    ensures sp[..|vals|] == vals && sp[|vals|..] == old(sp[|vals|..])
  {
    for i := 0 to |vals|
      invariant sp[..i] == vals[..i] && sp[i..] == old(sp[i..])
    {
      sp[i] := vals[i];
    }
  }

  /** `huffman_2step_quad` and `huffman_2step_pair`; m bounds how far ahead is looked. */
  method TwoStepData(book: Book, ghost cb: nat, ld: BitFile, sp: array<int>, ghost m: nat) returns (err: nat)
    requires WellFormedBook(book, cb) && book.TwoStep? && ld.Valid() && Width(cb) <= sp.Length && m >= 32
    requires Lookup(book, cb, ld.Next(m)).Done?
    modifies ld, sp
    ensures var o := Lookup(book, cb, old(ld.Next(m)));
            err == 0 && ld.Valid() && ld.Pos() == old(ld.Pos()) + o.n && sp[..Width(cb)] == o.vals
    ensures sp[Width(cb)..] == old(sp[Width(cb)..])
  {
    hide *;
    EntrySteps(book, cb, ld, m);
    ld.ShowValue(book.n);
    var cw := ld.ShowBits(book.n);
    var offset, extra := book.first[cw].offset, book.first[cw].extra;
    if extra != 0 {
      ld.FlushBits(book.n);
      ld.NextStream(extra);
      ld.ShowValue(extra);
      offset := offset + ld.ShowBits(extra);
      ld.FlushBits(book.second[offset].bits - book.n);
    } else {
      ld.FlushBits(book.second[offset].bits);
    }
    assert offset < |book.second|;  // so the check against the table size does not fire
    Store(sp, book.second[offset].vals);
    err := 0;
  }

  /** The two table steps spelled out on a stream seen far enough ahead. */
  lemma EntrySteps(b: Book, cb: nat, ld: BitFile, m: nat)
    requires WellFormedBook(b, cb) && b.TwoStep? && ld.Valid() && m >= 32
    ensures b.n <= 16 && Value(ld.Next(b.n)) < |b.first|
    ensures var f, i := b.first[Value(ld.Next(b.n))], EntryIndex(b, ld.Next(m));
            && f.extra <= 16
            && i == f.offset + (if f.extra == 0 then 0 else Value(Stream(ld.buffer, ld.Pos() + b.n, f.extra)))
            && (if f.extra == 0 then b.second[i].bits <= b.n else b.n < b.second[i].bits <= b.n + f.extra)
            && |b.second[i].vals| == Width(cb)
            && Lookup(b, cb, ld.Next(m)) == Done(b.second[i].vals, b.second[i].bits)
  {
    hide Value, StreamBit, Low, BitFile.Valid;
    var s, p := ld.Next(m), ld.Pos();
    EntryBits(b, s);
    StreamDrop(ld.buffer, p, m, b.n);
    PaddedTake(s, b.n);
    var c := Index(s, b.n);
    assert SettledEntry(b, c) || ExtendedEntry(b, c);
    var x := b.first[c].extra;
    PaddedTake(s[b.n..], x);
    StreamDrop(ld.buffer, p + b.n, m - b.n, x);
  }

  lemma PaddedTake(s: Bits, n: nat)
    requires n <= |s|
    ensures Padded(s, n) == s[..n] && Index(s, n) == Value(s[..n])
  {
    assert Padded(s, n) == s[..n];
  }

  /** `huffman_binary_quad` and `huffman_binary_pair`. */
  method BinaryData(nodes: seq<Node>, w: nat, ld: BitFile, sp: array<int>, ghost m: nat) returns (err: nat)
    requires w >= 2 && ForwardTree(nodes, w) && ld.Valid() && w <= sp.Length
    requires WalkTree(nodes, w, 0, ld.Next(m)).Done?
    modifies ld, sp
    ensures var o := WalkTree(nodes, w, 0, old(ld.Next(m)));
            err == 0 && ld.Valid() && ld.Pos() == old(ld.Pos()) + o.n && sp[..w] == o.vals
    ensures sp[w..] == old(sp[w..])
  {
    hide BitFile.Valid, StreamBit, Stream, WalkTree;
    WalkIsLeaf(nodes, w);
    var offset := 0;
    ghost var used, p := 0, ld.Pos();
    while !nodes[offset].isLeaf
      invariant offset < |nodes| && used <= m && ld.Valid() && ld.Pos() == p + used
      invariant sp[..] == old(sp[..])
      invariant WalkTree(nodes, w, 0, Stream(ld.buffer, p, m))
             == Advance(WalkTree(nodes, w, offset, Stream(ld.buffer, p + used, m - used)), used)
      decreases |nodes| - offset
    {
      StreamWalks(nodes, w, offset, ld.buffer, p + used, m - used);
      var b := ld.Get1Bit();
      used := used + 1;
      offset := offset + nodes[offset].data[b];
    }
    Store(sp, nodes[offset].data);
    err := 0;
  }

  lemma WalkIsLeaf(nodes: seq<Node>, w: nat)
    requires w >= 2 && ForwardTree(nodes, w)
    ensures forall o: nat, s: Bits :: o < |nodes| && nodes[o].isLeaf ==> WalkTree(nodes, w, o, s) == Done(nodes[o].data, 0)
  {
  }

  /** One bit down the tree. */
  lemma StreamWalks(nodes: seq<Node>, w: nat, o: nat, buffer: seq<Byte>, p: nat, m: nat)
    requires w >= 2 && ForwardTree(nodes, w) && o < |nodes| && !nodes[o].isLeaf
    requires WalkTree(nodes, w, o, Stream(buffer, p, m)).Done?
    ensures var b := if StreamBit(buffer, p) then 1 else 0;
            && m > 0 && o < o + nodes[o].data[b] < |nodes|
            && WalkTree(nodes, w, o, Stream(buffer, p, m))
               == Advance(WalkTree(nodes, w, o + nodes[o].data[b], Stream(buffer, p + 1, m - 1)), 1)
  {
    hide StreamBit;
    var s := Stream(buffer, p, m);
    assert s != [];
    assert s[0] == StreamBit(buffer, p + 0);
    StreamDrop(buffer, p, m, 1);
  }

  /** `huffman_sign_bits`. */
  method SignBits(ld: BitFile, sp: array<int>, len: nat, ghost m: nat)
    requires ld.Valid() && len <= sp.Length && Signs(sp[..len], 0, ld.Next(m)).Done?
    modifies ld, sp
    ensures var o := Signs(old(sp[..len]), 0, old(ld.Next(m)));
            ld.Valid() && ld.Pos() == old(ld.Pos()) + o.n && sp[..len] == o.vals
    ensures sp[len..] == old(sp[len..])
  {
    hide BitFile.Valid, StreamBit, Stream, Signs;
    AllSigned();
    ghost var used, p := 0, ld.Pos();
    for i := 0 to len
      invariant used <= m && ld.Valid() && ld.Pos() == p + used && sp[len..] == old(sp[len..])
      invariant Signs(old(sp[..len]), 0, Stream(ld.buffer, p, m))
             == Advance(Signs(sp[..len], i, Stream(ld.buffer, p + used, m - used)), used)
    {
      if sp[i] != 0 {
        ghost var vals := sp[..len];
        StreamSigns(vals, i, ld.buffer, p + used, m - used);
        var b := ld.Get1Bit();
        used := used + 1;
        if b % 2 == 1 {
          sp[i] := -sp[i];
        }
        assert sp[..len] == vals[i := if b == 1 then -vals[i] else vals[i]];
      } else {
        NoSign(sp[..len], i, Stream(ld.buffer, p + used, m - used));
      }
    }
  }

  lemma AllSigned()
    ensures forall vals: seq<int>, s: Bits :: Signs(vals, |vals|, s) == Done(vals, 0)
  {
  }

  lemma NoSign(vals: seq<int>, i: nat, s: Bits)
    requires i < |vals| && vals[i] == 0
    ensures Signs(vals, i, s) == Signs(vals, i + 1, s)
  {
  }

  /** One sign bit. */
  lemma StreamSigns(vals: seq<int>, i: nat, buffer: seq<Byte>, p: nat, m: nat)
    requires i < |vals| && vals[i] != 0 && Signs(vals, i, Stream(buffer, p, m)).Done?
    ensures m > 0
    ensures Signs(vals, i, Stream(buffer, p, m))
         == Advance(Signs(vals[i := if StreamBit(buffer, p) then -vals[i] else vals[i]], i + 1, Stream(buffer, p + 1, m - 1)), 1)
  {
    hide StreamBit;
    var s := Stream(buffer, p, m);
    assert s != [];
    assert s[0] == StreamBit(buffer, p + 0);
    StreamDrop(buffer, p, m, 1);
  }

  /** `huffman_getescape`. */
  method GetEscape(ld: BitFile, sp: int, ghost m: nat) returns (j: int)
    requires ld.Valid() && Escape(sp, ld.Next(m)).Done?
    modifies ld
    ensures var o := Escape(sp, old(ld.Next(m)));
            ld.Valid() && ld.Pos() == old(ld.Pos()) + o.n && o.vals == [j]
  {
    hide BitFile.Valid, StreamBit, Value, Pow2, Scale, Or, Wrap16;
    var neg: bool;
    if sp < 0 {
      if sp != -16 {
        return sp;
      }
      neg := true;
    } else {
      if sp != 16 {
        return sp;
      }
      neg := false;
    }
    ghost var s, p := ld.Next(m), ld.Pos();
    ghost var k := Ones(s);
    var i := 4;
    while true
      invariant 4 <= i <= k + 4 && ld.Valid() && ld.Pos() == p + (i - 4)
      decreases k + 4 - i
    {
      assert s[i - 4] == StreamBit(ld.buffer, p + (i - 4));
      var b := ld.Get1Bit();
      if b == 0 {
        break;
      }
      i := i + 1;
    }
    assert i == k + 4;
    StreamDrop(ld.buffer, p, m, k + 1);
    StreamDrop(ld.buffer, p + k + 1, m - k - 1, i);
    var off := ld.GetBits(i);
    EscapeMerge(s[k + 1..][..i], i);
    j := Wrap16(Or(off % 0x1_0000, Pow2(i) % 0x1_0000));
    if neg {
      WrapMinus(Pow2(i) + off);
      j := Wrap16(-j);
    }
  }

  lemma WrapMinus(x: int)
    ensures Wrap16(-Wrap16(x)) == Wrap16(-x)
  {
  }

  /** `off | (1 << i)` puts a leading one in front of i bits, as far as 16 bits show. */
  lemma EscapeMerge(s: Bits, i: nat)
    requires |s| == i
    ensures Wrap16(Or(Value(s) % 0x1_0000, Pow2(i) % 0x1_0000)) == Wrap16(Pow2(i) + Value(s))
  {
    hide Value, Scale, Or, Wrap16;
    ValueBelow(s);
    OrComm(Value(s) % 0x1_0000, Pow2(i) % 0x1_0000);
    if i < 16 {
      SmallPower(i);
      OrScale(1, Value(s), i);
    } else {
      LargePower(i);
      OrZero(Value(s) % 0x1_0000);
      WrapTurns(Value(s), Pow2(i));
    }
  }

  lemma SmallPower(i: nat)
    requires i < 16
    ensures 2 * Pow2(i) <= 0x1_0000
  {
    PowMono(i + 1, 16);
    Pow16();
  }

  lemma LargePower(i: nat)
    requires i >= 16
    ensures Pow2(i) % 0x1_0000 == 0
  {
    hide Scale;
    ScaleAdd(1, i - 16, 16);
    ScaleConst16(Pow2(i - 16));
    MultipleOf(Pow2(i - 16));
  }

  lemma MultipleOf(x: nat)
    ensures (0x1_0000 * x) % 0x1_0000 == 0
  {
  }

  lemma OrZero(x: nat)
    ensures Or(0, x) == x
  {
  }

  lemma WrapTurns(x: nat, turns: nat)
    requires turns % 0x1_0000 == 0
    ensures Wrap16(x % 0x1_0000) == Wrap16(turns + x)
  {
  }

  /** `huffman_codebook`: the high and the low half of one constant, as `int16_t`. */
  function Constant(i: nat): int {
    var data := 16428320;
    if i == 0 then Wrap16(data / 0x1_0000) else Wrap16(data)
  }

  /**
    `huffman_spectral_data`; a codebook that does not exist yields 11 and touches nothing.
    Codebook 12 reads past an entry of book 11 and stores two constants.
   */
  method SpectralData(t: Tables, cb: nat, ld: BitFile, sp: array<int>, ghost m: nat) returns (err: nat)
    requires WellFormed(t) && ld.Valid() && Width(cb) <= sp.Length
    requires IsSpectral(cb) ==> Decode(t, cb, ld.Next(m)).Done?
    requires cb == 12 ==> Lookup(t[11], 11, ld.Next(m)).Done?
    modifies ld, sp
    ensures ld.Valid()
    ensures !IsSpectral(cb) && cb != 12 ==> err == 11 && ld.Pos() == old(ld.Pos()) && sp[..] == old(sp[..])
    ensures IsSpectral(cb) ==>
              var o := Decode(t, cb, old(ld.Next(m)));
              err == 0 && ld.Pos() == old(ld.Pos()) + o.n && sp[..Width(cb)] == o.vals
    ensures cb == 12 ==> var o := Lookup(t[11], 11, old(ld.Next(m)));
                         err == 0 && ld.Pos() == old(ld.Pos()) + o.n && sp[..2] == [250, -21216]
    ensures sp[Width(cb)..] == old(sp[Width(cb)..])
  {
    hide *;
    if cb == 12 {
      Sized(cb);
      TableFurther(t, ld, m);
      err := TableData(t, 11, ld, sp, m + 32);
      Store(sp, [Constant(0), Constant(1)]);
      ConstantsAre();
    } else if !IsSpectral(cb) {
      return 11;
    } else {
      NextFurther(t, cb, ld, m);
      SpectralCodeword(t, cb, ld, sp, m + 32);
      err := 0;
    }
  }

  lemma Sized(cb: nat)
    requires cb == 12
    ensures !IsSpectral(cb) && Width(cb) == Width(11) == 2
  {
  }

  lemma ConstantsAre()
    ensures Constant(0) == 250 && Constant(1) == -21216
  {
  }

  lemma TableFurther(t: Tables, ld: BitFile, m: nat)
    requires WellFormed(t) && ld.Valid() && Lookup(t[11], 11, ld.Next(m)).Done?
    ensures Lookup(t[11], 11, ld.Next(m + 32)) == Lookup(t[11], 11, ld.Next(m))
  {
    hide Lookup, BitFile.Valid, Stream, WellFormedBook;
    var k, p := Lookup(t[11], 11, ld.Next(m)).n, ld.Pos();
    StreamDrop(ld.buffer, p, m, k);
    StreamDrop(ld.buffer, p, m + 32, k);
    LookupLocal(t[11], 11, ld.Next(m), ld.Next(m + 32));
  }

  lemma NextFurther(t: Tables, cb: nat, ld: BitFile, m: nat)
    requires WellFormed(t) && IsSpectral(cb) && ld.Valid() && Decode(t, cb, ld.Next(m)).Done?
    ensures Decode(t, cb, ld.Next(m + 32)) == Decode(t, cb, ld.Next(m))
  {
    hide Decode, BitFile.Valid, Stream, WellFormedBook;
    DecodeFurther(t, cb, ld.buffer, ld.Pos(), m, m + 32);
  }

  method SpectralCodeword(t: Tables, cb: nat, ld: BitFile, sp: array<int>, ghost m: nat)
    requires WellFormed(t) && IsSpectral(cb) && ld.Valid() && Width(cb) <= sp.Length && m >= 32
    requires Decode(t, cb, ld.Next(m)).Done?
    modifies ld, sp
    ensures var o := Decode(t, cb, old(ld.Next(m)));
            ld.Valid() && ld.Pos() == old(ld.Pos()) + o.n && sp[..Width(cb)] == o.vals
    ensures sp[Width(cb)..] == old(sp[Width(cb)..])
  {
    hide BitFile.Valid, Stream, Lookup, Signed, Escaped, WellFormedBook, CheckLav;
    ghost var p := ld.Pos();
    ghost var s := ld.Next(m);
    var n, w := BookNumber(cb), Width(cb);
    var err := TableData(t, n, ld, sp, m);
    ghost var a := Lookup(t[n], n, s);
    StreamDrop(ld.buffer, p, m, a.n);
    ApplySigns(cb, ld, sp, w, m - a.n);
    ghost var b := Signed(cb, a.vals, s[a.n..]);
    StreamDrop(ld.buffer, p, m, a.n + b.n);
    ApplyEscapes(cb, ld, sp, m - a.n - b.n);
  }

  method ApplySigns(cb: nat, ld: BitFile, sp: array<int>, w: nat, ghost m: nat)
    requires ld.Valid() && w <= sp.Length && Signed(cb, sp[..w], ld.Next(m)).Done?
    modifies ld, sp
    ensures var o := Signed(cb, old(sp[..w]), old(ld.Next(m)));
            ld.Valid() && ld.Pos() == old(ld.Pos()) + o.n && sp[..w] == o.vals
    ensures sp[w..] == old(sp[w..])
  {
    if HasSigns(cb) {
      SignBits(ld, sp, w, m);
    }
  }

  method ApplyEscapes(cb: nat, ld: BitFile, sp: array<int>, ghost m: nat)
    requires ld.Valid() && Width(cb) <= sp.Length && Escaped(cb, sp[..Width(cb)], ld.Next(m)).Done?
    modifies ld, sp
    ensures var o := Escaped(cb, old(sp[..Width(cb)]), old(ld.Next(m)));
            ld.Valid() && ld.Pos() == old(ld.Pos()) + o.n && sp[..Width(cb)] == CheckLav(cb, o.vals)
    ensures sp[Width(cb)..] == old(sp[Width(cb)..])
  {
    if HasEscapes(cb) {
      EscapePair(cb, ld, sp, m);
    }
  }

  /** Both escapes of a pair, then the check against the largest absolute value. */
  method EscapePair(cb: nat, ld: BitFile, sp: array<int>, ghost m: nat)
    requires ld.Valid() && HasEscapes(cb) && 2 <= sp.Length && Escapes(sp[..2], ld.Next(m)).Done?
    modifies ld, sp
    ensures var o := Escapes(old(sp[..2]), old(ld.Next(m)));
            ld.Valid() && ld.Pos() == old(ld.Pos()) + o.n && sp[..2] == CheckLav(cb, o.vals)
    ensures sp[2..] == old(sp[2..])
  {
    hide BitFile.Valid, StreamBit, Escape;
    ghost var e := Escape(sp[0], ld.Next(m));
    StreamDrop(ld.buffer, ld.Pos(), m, e.n);
    var v := GetEscape(ld, sp[0], m);
    sp[0] := v;
    v := GetEscape(ld, sp[1], m - e.n);
    sp[1] := v;
    var vals := CheckLav(cb, sp[..2]);
    Store(sp, vals);
  }

  method TableData(t: Tables, n: nat, ld: BitFile, sp: array<int>, ghost m: nat) returns (err: nat)
    requires WellFormed(t) && 1 <= n <= 11 && ld.Valid() && Width(n) <= sp.Length && m >= 32
    requires Lookup(t[n], n, ld.Next(m)).Done?
    modifies ld, sp
    ensures var o := Lookup(t[n], n, old(ld.Next(m)));
            err == 0 && ld.Valid() && ld.Pos() == old(ld.Pos()) + o.n && sp[..Width(n)] == o.vals
    ensures sp[Width(n)..] == old(sp[Width(n)..])
  {
    match t[n]
    case TwoStep(_, _, _) => err := TwoStepData(t[n], n, ld, sp, m);
    case Binary(nodes) => err := BinaryData(nodes, Width(n), ld, sp, m);
  }
}
