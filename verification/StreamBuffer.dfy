/**
  * common_buffer.c: a sliding linear buffer fed from the FIFO.
  *
  * Source stands for the FIFO and the task that fills it. `min` is a macro that
  * evaluates its winning argument a second time, so `fill_read_buffer` looks at
  * the fill level twice, and bytes may arrive before and between the two looks.
  */
module StreamBuffer {

  /** What the writer adds before the first look of a fill, and between its two looks. */
  datatype Arrival = Arrival(before: seq<bv8>, between: seq<bv8>)

  function Flat(a: seq<Arrival>): seq<bv8> {
    if a == [] then [] else a[0].before + a[0].between + Flat(a[1..])
  }

  lemma {:induction false} FlatFirst(a: seq<Arrival>, k: nat)
    requires k < |a|
    ensures |Flat(a[..k + 1])| == |Flat(a[..k])| + |a[k].before| + |a[k].between|
  {
    if k > 0 {
      FlatFirst(a[1..], k - 1);
      assert a[..k + 1][1..] == a[1..][..k] && a[..k][1..] == a[1..][..k - 1];
    } else {
      assert a[..1][1..] == [] && a[..0] == [];
    }
  }

  class Source {
    var pending: seq<bv8>
    var arrivals: seq<Arrival>

    /** Everything still to come out of the FIFO, in order. */
    ghost function Rest(): seq<bv8>
      reads this
    {
      pending + Flat(arrivals)
    }

    /** No bytes arrive between the two looks of any fill. */
    ghost predicate Quiet()
      reads this
    {
      forall k :: 0 <= k < |arrivals| ==> arrivals[k].between == []
    }

    /** The fill level at the two looks of the next fill. */
    ghost function Level1(): nat
      reads this
    {
      |pending| + if arrivals == [] then 0 else |arrivals[0].before|
    }

    ghost function Level2(): nat
      reads this
    {
      Level1() + if arrivals == [] then 0 else |arrivals[0].between|
    }

    /** Two calls of `spiRamFifoFill`, with what arrives meanwhile. */
    method Looks() returns (fill1: nat, fill2: nat)
      modifies this
      ensures Rest() == old(Rest()) && fill1 == old(Level1()) && fill2 == old(Level2()) == |pending|
      ensures old(pending) <= pending
      ensures arrivals == if old(arrivals) == [] then [] else old(arrivals)[1..]
      ensures old(Quiet()) ==> Quiet() && fill1 == fill2
    {
      if arrivals == [] {
        return |pending|, |pending|;
      }
      pending := pending + arrivals[0].before;
      fill1 := |pending|;
      pending := pending + arrivals[0].between;
      fill2 := |pending|;
      assert old(Rest()) == pending + Flat(arrivals[1..]);
      arrivals := arrivals[1..];
    }

    /** `spiRamFifoRead`, for no more bytes than there are. */
    method Read(n: nat) returns (bytes: seq<bv8>)
      requires n <= |pending|
      modifies this
      ensures |bytes| == n && bytes == old(pending)[..n] && pending == old(pending)[n..] && arrivals == old(arrivals)
      ensures bytes + Rest() == old(Rest())
    {
      bytes := pending[..n];
      pending := pending[n..];
      assert bytes + pending == old(pending);
    }
  }

  /** What `min(free, spiRamFifoFill())` comes to when the fill level is looked at twice. */
  function MacroMin(free: nat, fill1: nat, fill2: nat): nat {
    if free < fill1 then free else fill2
  }

  /** The bytes asked for fit exactly unless the level passes the free space between the looks. */
  lemma FitsIff(free: nat, fill1: nat, fill2: nat)
    requires fill1 <= fill2
    ensures MacroMin(free, fill1, fill2) <= fill2
    ensures MacroMin(free, fill1, fill2) <= free <==> (free < fill1 || fill2 <= free)
  {
  }

  /** One byte too many, with one byte free and one byte in the FIFO at the first look. */
  lemma FitsNot()
    ensures exists free: nat, fill1: nat, fill2: nat {:trigger MacroMin(free, fill1, fill2)} ::
      fill1 <= fill2 && MacroMin(free, fill1, fill2) > free
  {
    assert MacroMin(1, 1, 2) > 1;
  }

  /**
    * How a call ends: with a byte count, with -1, or by asking for more than fits.
    * Endless stands for a seek that loops on without anything ever arriving.
    */
  datatype Outcome = Done(n: nat) | Failed | Overrun | Endless

  /** `buffer_t`: positions are offsets from base. */
  class Buffer {
    var base: array<bv8>
    var readPos: nat
    var writePos: nat
    var len: nat
    var bytesConsumed: nat
    ghost var taken: seq<bv8>   // all bytes ever taken from the FIFO
    ghost var used: nat         // how many of them were read or skipped

    ghost predicate Valid()
      reads this, base
    {
      && readPos <= writePos <= len <= base.Length && len < 0x1_0000
      && used <= |taken| && base[readPos..writePos] == taken[used..]
      && bytesConsumed == used % 0x1_0000_0000
    }

    /** `buf_data_unread` */
    function Unread(): int
      reads this
    {
      writePos - readPos
    }

    /** `buf_free_capacity_after_purge` */
    function Free(): (f: int)
      reads this
      ensures f == len - Unread()
    {
      readPos + (len - writePos)
    }

    /** The one stream of bytes: those taken and those still to come. */
    ghost function Stream(src: Source): seq<bv8>
      reads this, src
    {
      taken + src.Rest()
    }

    /** `buf_create` */
    constructor (size: nat)
      ensures fresh(base) && readPos == writePos == bytesConsumed == used == 0 && taken == []
      ensures len == size % 0x1_0000 && base.Length == size && Valid()
    {
      base := new bv8[size](_ => 0);
      readPos, writePos, len, bytesConsumed := 0, 0, size % 0x1_0000, 0;
      taken, used := [], 0;
    }

    /** `buf_move_remaining_bytes_to_front` */
    method MoveToFront()
      requires Valid()
      modifies this, base
      ensures Valid() && base == old(base) && len == old(len) && taken == old(taken) && used == old(used)
      ensures readPos == 0 && Unread() == old(Unread()) && bytesConsumed == old(bytesConsumed)
    {
      var unread := writePos - readPos;
      ghost var was := base[readPos..writePos];
      forall i | 0 <= i < unread {
        base[i] := base[readPos + i];
      }
      assert base[..unread] == was;
      readPos, writePos := 0, unread;
    }

    /** `spiRamFifoRead` to write_pos. */
    method Append(src: Source, n: nat)
      requires Valid() && n <= len - writePos && n <= |src.pending|
      modifies this, base, src
      ensures Valid() && base == old(base) && len == old(len) && used == old(used) && bytesConsumed == old(bytesConsumed)
      ensures readPos == old(readPos) && writePos == old(writePos) + n && old(taken) <= taken
      ensures Stream(src) == old(Stream(src)) && src.arrivals == old(src.arrivals)
      ensures src.pending == old(src.pending)[n..]
    {
      var bytes := src.Read(n);
      ghost var was := base[readPos..writePos];
      forall i | 0 <= i < n {
        base[writePos + i] := bytes[i];
      }
      assert base[readPos..writePos + n] == was + bytes;
      writePos := writePos + n;
      taken := taken + bytes;
    }

    /** What the next fill asks for, and how it ends. */
    ghost function NextFill(src: Source): (r: Outcome)
      reads this, src
      requires Unread() <= len
      ensures r.Done? || r.Overrun?
    {
      var n := MacroMin(len - Unread(), src.Level1(), src.Level2());
      if n > len - Unread() then Overrun else Done(n)
    }

    /**
      * `fill_read_buffer`: moves the unread bytes to the front, then takes from the
      * FIFO as much as fits and is there. Overrun stands for the call that would
      * write past the end.
      */
    method FillReadBuffer(src: Source) returns (r: Outcome)
      requires Valid()
      modifies this, base, src
      ensures Valid() && base == old(base) && len == old(len) && used == old(used) && bytesConsumed == old(bytesConsumed)
      ensures r == old(NextFill(src)) && readPos == 0
      ensures Stream(src) == old(Stream(src)) && old(taken) <= taken
      ensures src.arrivals == if old(src.arrivals) == [] then [] else old(src.arrivals)[1..]
      ensures old(src.Quiet()) ==> src.Quiet() && r.Done?
      ensures r.Overrun? ==> taken == old(taken)
      ensures r.Done? ==> Unread() == old(Unread()) + r.n && (Unread() == len || src.pending == [])
      ensures r.Done? ==> Unread() == len || Unread() == old(Unread() + src.Level2())
      ensures r.Done? ==> Unread() + |src.pending| == old(Unread() + src.Level2())
    {
      MoveToFront();
      var free := Free();
      var fill1, fill2 := src.Looks();
      var n := MacroMin(free, fill1, fill2);
      if n > free {
        return Overrun;
      }
      if n > 0 {
        Append(src, n);
      }
      r := Done(n);
    }

    /** The next n bytes of the stream. */
    ghost predicate Next(src: Source, n: nat, bytes: seq<bv8>)
      reads this, src
    {
      used + n <= |Stream(src)| && bytes == Stream(src)[used..used + n]
    }

    /** Moves the read position on over unread bytes. */
    method Consume(n: nat)
      requires Valid() && n <= Unread()
      modifies this
      ensures Valid() && base == old(base) && len == old(len) && taken == old(taken) && writePos == old(writePos)
      ensures readPos == old(readPos) + n && used == old(used) + n
    {
      ghost var was := base[readPos..writePos];
      assert base[readPos + n..writePos] == was[n..];
      readPos := readPos + n;
      ConsumedModulo(used, n);
      bytesConsumed := (bytesConsumed + n) % 0x1_0000_0000;
      used := used + n;
    }

    /**
      * `buf_read`: returns exactly the next bytes, or -1 and then nothing is lost.
      * With size * count as size_t computes it.
      */
    method BufRead(bytesToCopy: nat, src: Source) returns (r: Outcome, bytes: seq<bv8>)
      requires Valid()
      modifies this, base, src
      ensures Valid() && base == old(base) && len == old(len) && Stream(src) == old(Stream(src)) && old(taken) <= taken
      ensures r.Done? ==> r.n == bytesToCopy == |bytes| && used == old(used) + bytesToCopy
      ensures r.Done? ==> old(Next(src, bytesToCopy, bytes))
      ensures !r.Done? ==> used == old(used) && bytes == [] && !r.Endless?
      ensures old(src.Quiet()) ==> src.Quiet() && !r.Overrun?
      ensures bytesToCopy > len ==> r.Failed?
      ensures bytesToCopy <= len && !r.Overrun? ==> (r.Done? <==> bytesToCopy <= old(Within(src, 100)))
    {
      hide Valid, Source.Quiet, Source.Rest;
      bytes := [];
      if bytesToCopy > len {
        return Failed, [];
      }
      r := Await(bytesToCopy, src);
      if r.Overrun? {
        return;
      }
      if bytesToCopy > Unread() {
        return Failed, [];
      }
      UnreadBounds(bytesToCopy);
      bytes := base[readPos..readPos + bytesToCopy];
      NextBytes(src, bytesToCopy, bytes);
      Consume(bytesToCopy);
      r := Done(bytesToCopy);
    }

    /** What is unread, in the FIFO, or arrives with the next k fills. */
    ghost function Within(src: Source, k: nat): int
      reads this, src
    {
      Unread() + |src.pending| + |Flat(if k < |src.arrivals| then src.arrivals[..k] else src.arrivals)|
    }

    /**
      * Fills until enough is unread, up to a hundred times: if no fill asks for too much, enough
      * is unread in the end exactly when buffer and FIFO hold it or it arrives with these fills.
      */
    method Await(bytesToCopy: nat, src: Source) returns (r: Outcome)
      requires Valid()
      modifies this, base, src
      ensures Valid() && base == old(base) && len == old(len) && used == old(used)
      ensures Stream(src) == old(Stream(src)) && old(taken) <= taken
      ensures r.Done? || r.Overrun?
      ensures old(src.Quiet()) ==> src.Quiet() && r.Done?
      ensures r.Done? && bytesToCopy <= len ==> (bytesToCopy <= Unread() <==> bytesToCopy <= old(Within(src, 100)))
    {
      hide Valid, Stream, Source.Quiet, Source.Rest, MacroMin;
      UnreadAtMost();
      var delay := 0;
      r := Done(0);
      ghost var k: nat := 0;
      NoneYet(src.arrivals);
      while bytesToCopy > Unread() && delay < 5000
        invariant Valid() && base == old(base) && len == old(len) && used == old(used)
        invariant Stream(src) == old(Stream(src)) && old(taken) <= taken && r.Done?
        invariant old(src.Quiet()) ==> src.Quiet()
        invariant delay == 50 * k && k <= 100 && Unread() <= len
        invariant src.arrivals == Later(old(src.arrivals), k)
        invariant Unread() + |src.pending| == old(Within(src, k))
        invariant k > 0 ==> Unread() == len || src.pending == []
        decreases 5000 - delay
      {
        UnreadAtMost();
        OneMore(old(src.arrivals), k);
        r := FillReadBuffer(src);
        if r.Overrun? {
          return;
        }
        UnreadAtMost();
        delay := delay + 50;
        k := k + 1;
      }
      if bytesToCopy <= Unread() {
        FlatGrows(old(src.arrivals), k, 100);
      }
    }

    /** The arrivals after the first k. */
    ghost function Later(a: seq<Arrival>, k: nat): seq<Arrival> {
      if k < |a| then a[k..] else []
    }

    lemma NoneYet(a: seq<Arrival>)
      ensures Later(a, 0) == a && |Flat(if 0 < |a| then a[..0] else a)| == 0
    {
    }

    lemma OneMore(a: seq<Arrival>, k: nat)
      ensures Later(a, k + 1) == if Later(a, k) == [] then [] else Later(a, k)[1..]
      ensures |Flat(if k + 1 < |a| then a[..k + 1] else a)|
           == |Flat(if k < |a| then a[..k] else a)| + if Later(a, k) == [] then 0 else |Later(a, k)[0].before| + |Later(a, k)[0].between|
    {
      if k < |a| {
        FlatFirst(a, k);
        assert k + 1 == |a| ==> a[..k + 1] == a;
      }
    }

    lemma {:induction false} FlatGrows(a: seq<Arrival>, k: nat, n: nat)
      requires k <= n
      ensures |Flat(if k < |a| then a[..k] else a)| <= |Flat(if n < |a| then a[..n] else a)|
      decreases n
    {
      if k < n {
        FlatGrows(a, k, n - 1);
        OneMore(a, n - 1);
      }
    }

    lemma UnreadAtMost()
      requires Valid()
      ensures 0 <= Unread() <= len
    {
    }

    lemma UnreadBounds(n: nat)
      requires Valid() && n <= Unread()
      ensures readPos + n <= base.Length
    {
    }

    lemma NextBytes(src: Source, n: nat, bytes: seq<bv8>)
      requires Valid() && n <= Unread() && bytes == base[readPos..readPos + n]
      ensures Next(src, n, bytes)
    {
      assert bytes == base[readPos..writePos][..n];
      assert taken[used..][..n] == Stream(src)[used..used + n];
    }

    /** The stream reaches offset bytes past the read position. */
    ghost predicate Reaches(src: Source, offset: nat)
      reads this, src
    {
      used + offset <= |Stream(src)|
    }

    /**
      * One turn of `buf_seek_rel`: done, or everything unread is skipped and more is
      * loaded. A turn neither makes nor breaks that the stream reaches far enough, and
      * only a seek that it reaches gets done.
      */
    method SeekTurn(offset: nat, src: Source) returns (done: bool, r: Outcome, rest: nat)
      requires Valid()
      modifies this, base, src
      ensures Valid() && base == old(base) && len == old(len) && Stream(src) == old(Stream(src)) && old(taken) <= taken
      ensures done <==> offset <= old(Unread())
      ensures rest == if done then 0 else offset - old(Unread())
      ensures used + rest == old(used) + offset && (r.Done? || r.Overrun?)
      ensures Reaches(src, rest) <==> old(Reaches(src, offset))
      ensures done ==> old(Reaches(src, offset)) && r.Done? && src.arrivals == old(src.arrivals)
      ensures old(src.Quiet()) ==> src.Quiet() && !r.Overrun?
      ensures !done && old(src.arrivals) != [] ==> |src.arrivals| < old(|src.arrivals|)
      ensures !done && old(src.arrivals) == [] ==> src.arrivals == []
      ensures !done && r.Done? ==> Unread() == len || src.pending == []
    {
      hide Source.Rest, Source.Level1, Source.Level2, NextFill, MacroMin, Flat;
      var available := Unread();
      rest := 0;
      if offset > available {
        Consume(available);
        rest := offset - available;
        done := false;
        r := FillReadBuffer(src);
      } else {
        Consume(offset);
        done, r := true, Done(0);
      }
      assert taken == taken[..used] + taken[used..];
    }

    lemma NothingLeft(src: Source, rest: nat)
      requires Valid() && Unread() == 0 && src.arrivals == [] && (Unread() == len || src.pending == []) && rest > 0
      ensures len == 0 || (used == |Stream(src)| && !Reaches(src, rest))
    {
      assert |base[readPos..writePos]| == |taken[used..]|;
    }

    /**
      * `buf_seek_rel`: ends after skipping exactly offset bytes if the stream reaches so
      * far, and loops on at the end of the stream if it does not.
      */
    method BufSeekRel(offset: nat, src: Source) returns (r: Outcome)
      requires Valid()
      modifies this, base, src
      ensures Valid() && base == old(base) && len == old(len) && Stream(src) == old(Stream(src)) && old(taken) <= taken
      ensures !r.Failed? && old(used) <= used <= old(used) + offset
      ensures r.Done? ==> used == old(used) + offset && old(Reaches(src, offset))
      ensures r.Endless? ==> len == 0 || (!old(Reaches(src, offset)) && used == |Stream(src)|)
      ensures old(src.Quiet()) ==> src.Quiet() && !r.Overrun?
    {
      hide Valid, Stream, Source.Quiet, Source.Rest;
      var rest: nat := offset;
      var done := false;
      r := Done(0);
      while !done
        invariant Valid() && base == old(base) && len == old(len) && Stream(src) == old(Stream(src)) && old(taken) <= taken
        invariant used + rest == old(used) + offset && r.Done? && (done ==> rest == 0 && old(Reaches(src, offset)))
        invariant Reaches(src, rest) <==> old(Reaches(src, offset))
        invariant old(src.Quiet()) ==> src.Quiet()
        decreases !done, rest, |src.arrivals|, if Unread() == 0 then 1 else 0
      {
        UnreadAtMost();
        done, r, rest := SeekTurn(rest, src);
        UnreadAtMost();
        if r.Overrun? {
          return;
        }
        if !done && src.arrivals == [] && Unread() == 0 {
          NothingLeft(src, rest);
          return Endless;
        }
      }
    }

    /**
      * `buf_resize`, with whether `realloc` finds the memory. The new size lands in a
      * 16-bit field: the buffer stays well formed exactly when what is left of it
      * still covers the data.
      */
    method BufResize(newSize: nat, found: bool) returns (ok: bool)
      requires Valid()
      modifies this
      ensures ok == (found && old(len) <= newSize)
      ensures taken == old(taken) && used == old(used) && readPos == old(readPos) && writePos == old(writePos)
      ensures ok ==> len == newSize % 0x1_0000 && base.Length == newSize && fresh(base)
      ensures ok ==> writePos <= base.Length && base[readPos..writePos] == taken[used..]
      ensures ok ==> (Valid() <==> writePos <= newSize % 0x1_0000)
      ensures !ok ==> Valid() && base == old(base) && len == old(len)
    {
      if len > newSize || !found {
        return false;
      }
      ghost var was := base[readPos..writePos];
      var grown := new bv8[newSize](i reads this, base => if 0 <= i < base.Length then base[i] else 0);
      assert grown[readPos..writePos] == was;
      len := newSize % 0x1_0000;
      base := grown;
      ok := true;
    }
  }

  lemma ConsumedModulo(used: nat, n: nat)
    ensures (used % 0x1_0000_0000 + n) % 0x1_0000_0000 == (used + n) % 0x1_0000_0000
  {
  }
}
