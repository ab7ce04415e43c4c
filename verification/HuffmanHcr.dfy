/**
  `huffman_spectral_data_2`: the spectral codeword decoder on a bit register.
  It never reads past the register; when the codeword is longer it gives up with
  -1, the length at 0 and the words as they were.
 */
module HuffmanHcr {
  import opened Words
  import opened HcrWords
  import opened Codewords

  /** What a reading step with outcome o leaves of register r. */
  function After(r: Register, o: Outcome): Register {
    if o.Done? && o.n <= r.len then r.(len := r.len - o.n) else r.(len := 0)
  }

  lemma ContentAfter(r: Register, k: nat)
    requires r.Valid() && k <= r.len
    ensures r.(len := r.len - k).Content() == r.Content()[k..]
  {
    FlushContent(r, k);
  }

  method Flush(r: Register, n: nat) returns (r': Register, err: bool)
    ensures err == (r.len < n) && r' == r.(len := if err then 0 else r.len - n)
  {
    var (q, e) := FlushBits(r, n);
    r', err := q, e;
  }

  method Get1BitHcr(r: Register) returns (r': Register, err: bool, b: nat)
    requires r.Valid()
    ensures err == (r.len == 0) && r' == r.(len := if err then 0 else r.len - 1)
    ensures !err ==> b == if r.Content()[0] then 1 else 0
  {
    ShowContent(r, 1);
    b := ShowBits(r, 1) % 2;
    r', err := Flush(r, 1);
    assert Padded(r.Content(), 1) == [r.len > 0 && r.Content()[0]];
  }

  method GetBitsHcr(r: Register, n: nat) returns (r': Register, err: bool, v: nat)
    requires r.Valid() && n <= 32
    ensures err == (r.len < n) && r' == r.(len := if err then 0 else r.len - n)
    ensures !err ==> v == Value(r.Content()[..n])
  {
    ShowContent(r, n);
    v := ShowBits(r, n);
    r', err := Flush(r, n);
    if n <= r.len {
      assert Padded(r.Content(), n) == r.Content()[..n];
    }
  }

  /** Codebooks 1, 2, 4, 6, 8, 10 and 11: two table steps. */
  method TwoStepData(book: Book, ghost cb: nat, r: Register, sp: array<int>, at: nat)
    returns (r': Register, ok: bool)
    requires WellFormedBook(book, cb) && book.TwoStep? && r.Valid() && at + Width(cb) <= sp.Length
    modifies sp
    ensures var o := Lookup(book, cb, r.Content());
            ok == o.Done? && r' == After(r, o) && (ok ==> sp[at..at + Width(cb)] == o.vals)
    ensures sp[..at] == old(sp[..at]) && sp[at + Width(cb)..] == old(sp[at + Width(cb)..])
  {
    ghost var s := r.Content();
    hide Value, Low, Register.Content;
    ShowContent(r, book.n);
    ValueIndex(Padded(s, book.n));
    EntryBits(book, s);
    var err: bool;
    var cw := ShowBits(r, book.n);
    var offset, extra := book.first[cw].offset, book.first[cw].extra;
    assert SettledEntry(book, cw) || ExtendedEntry(book, cw);
    if extra != 0 {
      r', err := Flush(r, book.n);
      if err {
        return r', false;
      }
      ContentAfter(r, book.n);
      ShowContent(r', extra);
      ValueIndex(Padded(Drop(s, book.n), extra));
      offset := offset + ShowBits(r', extra);
      assert offset == EntryIndex(book, s);
      r', err := Flush(r', book.second[offset].bits - book.n);
    } else {
      r', err := Flush(r, book.second[offset].bits);
    }
    if err {
      return r', false;
    }
    Store(sp, at, book.second[offset].vals);
    ok := true;
  }

  method Store(sp: array<int>, at: nat, vals: seq<int>)
    requires at + |vals| <= sp.Length
    modifies sp
    ensures sp[at..at + |vals|] == vals
    ensures sp[..at] == old(sp[..at]) && sp[at + |vals|..] == old(sp[at + |vals|..])
  {
    for i := 0 to |vals|
      invariant forall k :: 0 <= k < sp.Length ==> sp[k] == if at <= k < at + i then vals[k - at] else old(sp[k])
    {
      sp[at + i] := vals[i];
    }
  }

  /** Codebooks 3, 5, 7 and 9: a walk down a binary table. */
  method BinaryData(nodes: seq<Node>, w: nat, r: Register, sp: array<int>, at: nat)
    returns (r': Register, ok: bool)
    requires w >= 2 && ForwardTree(nodes, w) && r.Valid() && at + w <= sp.Length
    modifies sp
    ensures var o := WalkTree(nodes, w, 0, r.Content());
            ok == o.Done? && r' == After(r, o) && (ok ==> sp[at..at + w] == o.vals)
    ensures sp[..at] == old(sp[..at]) && sp[at + w..] == old(sp[at + w..])
  {
    hide Register.Content;
    var offset := 0;
    r' := r;
    ghost var used := 0;
    while !nodes[offset].isLeaf
      invariant offset < |nodes| && used <= r.len && r' == r.(len := r.len - used)
      invariant sp[..] == old(sp[..])
      invariant WalkTree(nodes, w, 0, r.Content()) == Advance(WalkTree(nodes, w, offset, r'.Content()), used)
      decreases |nodes| - offset
    {
      ContentAfter(r', if r'.len == 0 then 0 else 1);
      var err, b;
      r', err, b := Get1BitHcr(r');
      if err {
        return r', false;
      }
      used := used + 1;
      offset := offset + nodes[offset].data[b];
    }
    Store(sp, at, nodes[offset].data);
    ok := true;
  }

  /** One sign bit for each nonzero value; on failure some signs may already be applied. */
  method SignBits(w: nat, r: Register, sp: array<int>, at: nat) returns (r': Register, ok: bool)
    requires r.Valid() && at + w <= sp.Length
    modifies sp
    ensures var o := Signs(old(sp[at..at + w]), 0, r.Content());
            ok == o.Done? && r' == After(r, o) && (ok ==> sp[at..at + w] == o.vals)
    ensures sp[..at] == old(sp[..at]) && sp[at + w..] == old(sp[at + w..])
  {
    hide Register.Content;
    r' := r;
    ghost var used := 0;
    for i := 0 to w
      invariant used <= r.len && r' == r.(len := r.len - used)
      invariant sp[..at] == old(sp[..at]) && sp[at + w..] == old(sp[at + w..])
      invariant Signs(old(sp[at..at + w]), 0, r.Content())
             == Advance(Signs(sp[at..at + w], i, r'.Content()), used)
    {
      if sp[at + i] != 0 {
        ghost var vals := sp[at..at + w];
        ContentAfter(r', if r'.len == 0 then 0 else 1);
        var err, b;
        r', err, b := Get1BitHcr(r');
        if err {
          return r', false;
        }
        used := used + 1;
        if b != 0 {
          sp[at + i] := -sp[at + i];
        }
        assert sp[at..at + w] == vals[i := if b != 0 then -vals[i] else vals[i]];
      }
    }
    ok := true;
  }

  /** One value's escape; nothing is read unless the value is 16 or -16. */
  method EscapeBits(v: int, r: Register) returns (r': Register, ok: bool, v': int)
    requires r.Valid() && !Escape(v, r.Content()).Wild?
    ensures var o := Escape(v, r.Content());
            ok == o.Done? && r' == After(r, o) && (ok ==> o.vals == [v'])
  {
    hide *;
    NoEscape(v, r);
    r', ok, v' := r, true, v;
    if v == 16 || v == -16 {
      EscapeForm(v, r);
      var i;
      r', ok, i := EscapeSize(r);
      if !ok {
        return;
      }
      ContentBehind(r, i - 3);
      var err, off;
      r', err, off := GetBitsHcr(r', i);
      if err {
        return r', false, v;
      }
      var j := off + Pow2(i);
      v' := Wrap16(if v < 0 then -j else j);
    }
  }

  lemma NoEscape(v: int, r: Register)
    ensures |r.Content()| == r.len
    ensures v != 16 && v != -16 ==> Escape(v, r.Content()) == Done([v], 0) && After(r, Done([v], 0)) == r
  {
    hide Register.Content;
  }

  lemma ContentBehind(r: Register, k: nat)
    requires r.Valid() && k <= r.len
    ensures r.(len := r.len - k).Valid() && r.(len := r.len - k).Content() == r.Content()[k..]
  {
    ContentAfter(r, k);
  }

  lemma EscapeForm(v: int, r: Register)
    requires (v == 16 || v == -16) && !Escape(v, r.Content()).Wild?
    ensures var s := r.Content(); var k := Ones(s); var o := Escape(v, s);
            && (k < |s| ==> k + 4 <= 32)
            && (k == |s| || |s| < 2 * k + 5 ==> o.Short? && After(r, o) == r.(len := 0))
            && (k < |s| && |s| >= 2 * k + 5 ==>
                  var m := Value(s[k + 1..][..k + 4]) + Pow2(k + 4);
                  o == Done([Wrap16(if v < 0 then -m else m)], 2 * k + 5) && After(r, o) == r.(len := r.len - (2 * k + 5)))
  {
    hide Ones, Value, Pow2, Register.Content, Wrap16;
  }

  /** The run of ones and the zero that ends it; i is 4 more than the number of ones. */
  method EscapeSize(r: Register) returns (r': Register, ok: bool, i: nat)
    requires r.Valid()
    ensures var k := Ones(r.Content());
            && ok == (k < r.len) && r' == r.(len := if ok then r.len - k - 1 else 0)
            && (ok ==> i == k + 4)
  {
    hide Register.Content;
    ghost var s := r.Content();
    r', i := r, 4;
    while true
      invariant 4 <= i && i - 4 <= |s| && r' == r.(len := r.len - (i - 4))
      invariant forall k :: 0 <= k < i - 4 ==> s[k]
      decreases |s| + 4 - i
    {
      OnesAtLeast(s, i - 4);
      var err, b;
      ContentAfter(r, i - 4);
      r', err, b := Get1BitHcr(r');
      if err {
        return r', false, i;
      }
      if b == 0 {
        break;
      }
      i := i + 1;
    }
    OnesExactly(s, i - 4);
    ok := true;
  }

  /** `huffman_spectral_data_2`. */
  method SpectralData2(t: Tables, cb: nat, r: Register, sp: array<int>, at: nat)
    returns (r': Register, ret: int)
    requires WellFormed(t) && IsSpectral(cb) && r.Valid() && at + Width(cb) <= sp.Length
    requires !Decode(t, cb, r.Content()).Wild?
    modifies sp
    ensures var o := Decode(t, cb, r.Content());
            && r' == After(r, o)
            && (o.Done? ==> ret == r'.len && sp[at..at + Width(cb)] == o.vals)
            && (o.Short? ==> ret == -1)
    ensures sp[..at] == old(sp[..at]) && sp[at + Width(cb)..] == old(sp[at + Width(cb)..])
  {
    hide Register.Content, Lookup, Signs, Escape, WellFormedBook, WalkTree, ForwardTree;
    ghost var s := r.Content();
    var n, w := BookNumber(cb), Width(cb);
    var ok;
    r', ok := TableData(t, n, r, sp, at);
    ghost var a := Lookup(t[n], n, s);
    if !ok {
      return r', -1;
    }
    ContentAfter(r, a.n);
    if HasSigns(cb) {
      r', ok := SignBits(w, r', sp, at);
    }
    ghost var b := Signed(cb, a.vals, s[a.n..]);
    if !ok {
      return r', -1;
    }
    ContentAfter(r, a.n + b.n);
    if HasEscapes(cb) {
      r', ok := EscapePair(cb, r', sp, at);
      if !ok {
        return r', -1;
      }
    }
    ret := r'.len;
  }

  /** Both escapes of a pair, then the check against the largest absolute value. */
  method EscapePair(cb: nat, r: Register, sp: array<int>, at: nat) returns (r': Register, ok: bool)
    requires r.Valid() && HasEscapes(cb) && at + 2 <= sp.Length
    requires !Escapes(sp[at..at + 2], r.Content()).Wild?
    modifies sp
    ensures var o := Escapes(old(sp[at..at + 2]), r.Content());
            ok == o.Done? && r' == After(r, o) && (ok ==> sp[at..at + 2] == CheckLav(cb, o.vals))
    ensures sp[..at] == old(sp[..at]) && sp[at + 2..] == old(sp[at + 2..])
  {
    hide Register.Content, Escape;
    ghost var e := Escape(sp[at], r.Content());
    var v;
    r', ok, v := EscapeBits(sp[at], r);
    if !ok {
      return;
    }
    ContentAfter(r, e.n);
    sp[at] := v;
    r', ok, v := EscapeBits(sp[at + 1], r');
    if !ok {
      return;
    }
    sp[at + 1] := v;
    var vals := CheckLav(cb, sp[at..at + 2]);
    Store(sp, at, vals);
  }

  /** The table part, two-step or binary as the codebook demands. */
  method TableData(t: Tables, n: nat, r: Register, sp: array<int>, at: nat) returns (r': Register, ok: bool)
    requires WellFormed(t) && 1 <= n <= 11 && r.Valid() && at + Width(n) <= sp.Length
    modifies sp
    ensures var o := Lookup(t[n], n, r.Content());
            ok == o.Done? && r' == After(r, o) && (ok ==> sp[at..at + Width(n)] == o.vals)
    ensures sp[..at] == old(sp[..at]) && sp[at + Width(n)..] == old(sp[at + Width(n)..])
  {
    match t[n]
    case TwoStep(_, _, _) => r', ok := TwoStepData(t[n], n, r, sp, at);
    case Binary(nodes) => r', ok := BinaryData(nodes, Width(n), r, sp, at);
  }
}
