/**
  * spiram_fifo.c: the ring in external RAM, one reader task and one writer task.
  *
  * The ring's critical sections are methods on an array (class Ring). The tasks
  * are a state machine whose steps are what a task does between two calls into
  * the scheduler, so that a run is any interleaving of their steps.
  */
module Fifo {

  const SPIREADSIZE := 64
  const FIFO_LOWMARK := 112 * 1024

  // ----- the ring

  datatype View = View(mem: seq<bv8>, rpos: nat, wpos: nat, fill: nat)
  {
    /** `SPIRAMSIZE` */
    function Size(): nat { |mem| }

    /** The fill bytes from rpos, wrapping at the end, and wpos right behind them. */
    predicate Valid() {
      && rpos < |mem| && wpos < |mem| && fill <= |mem|
      && wpos == Wrap(rpos + fill)
    }

    function Wrap(i: nat): nat {
      if i < |mem| then i else i - |mem|
    }

    /** The bytes in the ring, oldest first. */
    function Contents(): (c: seq<bv8>)
      requires Valid()
      ensures |c| == fill
    {
      if rpos + fill <= |mem| then mem[rpos..rpos + fill]
      else mem[rpos..] + mem[..rpos + fill - |mem|]
    }

    /** Takes n bytes out at rpos. */
    function Take(n: nat): View
      requires n <= fill
    {
      this.(rpos := if rpos + n >= |mem| then 0 else rpos + n, fill := fill - n)
    }

    /** Stores bytes at wpos. */
    function Store(b: seq<bv8>): View
      requires wpos + |b| <= |mem|
    {
      this.(mem := mem[..wpos] + b + mem[wpos + |b|..],
            wpos := if wpos + |b| >= |mem| then 0 else wpos + |b|,
            fill := fill + |b|)
    }
  }

  lemma TakeOldest(v: View, n: nat)
    requires v.Valid() && n <= v.fill && v.rpos + n <= v.Size()
    ensures v.Take(n).Valid()
    ensures v.mem[v.rpos..v.rpos + n] == v.Contents()[..n]
    ensures v.Take(n).Contents() == v.Contents()[n..]
  {
    hide *;
    TakeValid(v, n);
    if v.rpos + v.fill <= v.Size() {
      TakeWithin(v, n);
    } else {
      TakeAcross(v, n);
    }
  }

  lemma TakeValid(v: View, n: nat)
    requires v.Valid() && n <= v.fill && v.rpos + n <= v.Size()
    ensures v.Take(n).Valid() && v.Size() == |v.mem|
  {
  }

  lemma TakeWithin(v: View, n: nat)
    requires v.Valid() && n <= v.fill && v.rpos + v.fill <= v.Size() && v.Take(n).Valid()
    ensures v.mem[v.rpos..v.rpos + n] == v.Contents()[..n]
    ensures v.Take(n).Contents() == v.Contents()[n..]
  {
    TakenWithin(v, n);
    hide *;
    Within(v.mem, v.rpos, v.rpos + v.fill, n);
  }

  lemma TakenWithin(v: View, n: nat)
    requires v.Valid() && n <= v.fill && v.rpos + v.fill <= v.Size() && v.Take(n).Valid()
    ensures v.rpos + v.fill <= |v.mem| && v.Contents() == v.mem[v.rpos..v.rpos + v.fill]
    ensures v.Take(n).Contents() == v.mem[v.rpos + n..v.rpos + v.fill]
  {
  }

  lemma TakeAcross(v: View, n: nat)
    requires v.Valid() && n <= v.fill && v.rpos + n <= v.Size() < v.rpos + v.fill && v.Take(n).Valid()
    ensures v.mem[v.rpos..v.rpos + n] == v.Contents()[..n]
    ensures v.Take(n).Contents() == v.Contents()[n..]
  {
    var a, b := v.mem[v.rpos..], v.mem[..v.rpos + v.fill - v.Size()];
    TakenAcross(v, n);
    hide *;
    Within(v.mem, v.rpos, |v.mem|, n);
    Across(a, b, n);
  }

  lemma TakenAcross(v: View, n: nat)
    requires v.Valid() && n <= v.fill && v.rpos + n <= v.Size() < v.rpos + v.fill && v.Take(n).Valid()
    ensures v.Size() == |v.mem| && v.rpos <= |v.mem| && 0 <= v.rpos + v.fill - v.Size() <= |v.mem|
    ensures var a, b := v.mem[v.rpos..v.Size()], v.mem[..v.rpos + v.fill - v.Size()];
            n <= |a| && v.Contents() == a + b && v.Take(n).Contents() == a[n..] + b
    ensures v.mem[v.rpos..] == v.mem[v.rpos..v.Size()]
  {
  }

  function Min(a: nat, b: nat): nat {
    if a < b then a else b
  }

  lemma Within<T>(m: seq<T>, a: nat, b: nat, n: nat)
    requires a + n <= b <= |m|
    ensures m[a..b][..n] == m[a..a + n] && m[a..b][n..] == m[a + n..b]
  {
  }

  lemma Across<T>(a: seq<T>, b: seq<T>, n: nat)
    requires n <= |a|
    ensures (a + b)[..n] == a[..n] && (a + b)[n..] == a[n..] + b
  {
  }

  lemma Cut<T>(a: seq<T>, c: seq<T>, n: nat)
    requires n <= |c|
    ensures (a + c[..n]) + c[n..] == a + c
  {
    assert c[..n] + c[n..] == c;
  }

  lemma StoreNewest(v: View, b: seq<bv8>)
    requires v.Valid() && v.wpos + |b| <= v.Size() && |b| <= v.Size() - v.fill && 0 < |b|
    ensures v.Store(b).Valid() && v.Store(b).Size() == v.Size()
    ensures v.Store(b).Contents() == v.Contents() + b
  {
    hide *;
    StoreSize(v, b);
    StoreCases(v, b);
    var q := v.Store(b);
    if v.rpos + v.fill < |v.mem| {
      StoredWithin(v.mem, q.mem, v.rpos, v.wpos, b);
    } else {
      StoredAcross(v.mem, q.mem, v.rpos, v.wpos, b);
    }
  }

  lemma StoreSize(v: View, b: seq<bv8>)
    requires v.Valid() && v.wpos + |b| <= v.Size() && |b| <= v.Size() - v.fill && 0 < |b|
    ensures v.wpos + |b| <= |v.mem| && |v.Store(b).mem| == |v.mem| == v.Size()
    ensures v.Store(b).Size() == v.Size() && v.Store(b).Valid()
  {
    assert |v.mem[..v.wpos] + b + v.mem[v.wpos + |b|..]| == |v.mem|;
  }

  /** The bytes in the ring, and behind them or in front of the oldest the new ones. */
  lemma StoreCases(v: View, b: seq<bv8>)
    requires v.Valid() && v.wpos + |b| <= v.Size() && |b| <= v.Size() - v.fill && 0 < |b|
    requires v.Store(b).Valid() && |v.Store(b).mem| == |v.mem| == v.Size()
    ensures v.Store(b).mem == v.mem[..v.wpos] + b + v.mem[v.wpos + |b|..]
    ensures var q := v.Store(b);
            if v.rpos + v.fill < |v.mem| then
              && v.rpos <= v.wpos && v.Contents() == v.mem[v.rpos..v.wpos]
              && q.Contents() == q.mem[v.rpos..v.wpos + |b|]
            else
              && v.wpos + |b| <= v.rpos <= |v.mem| && v.Contents() == v.mem[v.rpos..] + v.mem[..v.wpos]
              && q.Contents() == q.mem[v.rpos..] + q.mem[..v.wpos + |b|]
  {
  }

  /** Storing behind bytes that have not wrapped, or have just filled the ring up to its end. */
  lemma StoredWithin(mem: seq<bv8>, mem': seq<bv8>, rpos: nat, wpos: nat, b: seq<bv8>)
    requires rpos <= wpos && wpos + |b| <= |mem| && mem' == mem[..wpos] + b + mem[wpos + |b|..]
    ensures mem'[rpos..wpos + |b|] == mem[rpos..wpos] + b
  {
  }

  /** Storing in front of the oldest byte. */
  lemma StoredAcross(mem: seq<bv8>, mem': seq<bv8>, rpos: nat, wpos: nat, b: seq<bv8>)
    requires wpos + |b| <= rpos <= |mem| && mem' == mem[..wpos] + b + mem[wpos + |b|..]
    ensures mem'[rpos..] + mem'[..wpos + |b|] == mem[rpos..] + mem[..wpos] + b
  {
  }

  class Ring {
    const mem: array<bv8>
    var fifoRpos: nat
    var fifoWpos: nat
    var fifoFill: nat

    function V(): View
      reads this, mem
    {
      View(mem[..], fifoRpos, fifoWpos, fifoFill)
    }

    /** `spiRamFifoInit` */
    constructor (size: nat)
      requires size > 0
      ensures V().Valid() && V().fill == 0 && V().Size() == size && fresh(mem)
    {
      mem := new bv8[size];
      fifoRpos, fifoWpos, fifoFill := 0, 0, 0;
    }

    /** The reader's critical section: fails and changes nothing when fewer than n bytes are there. */
    method ReadSection(n: nat) returns (ok: bool, buff: seq<bv8>)
      requires V().Valid() && n <= V().Size() - fifoRpos
      modifies this
      ensures ok == (n <= old(fifoFill))
      ensures V() == if ok then old(V()).Take(n) else old(V())
      ensures buff == if ok then old(V()).Contents()[..n] else []
    {
      if fifoFill < n {
        return false, [];
      }
      TakeOldest(V(), n);
      buff := mem[fifoRpos..fifoRpos + n];
      fifoFill := fifoFill - n;
      fifoRpos := fifoRpos + n;
      if fifoRpos >= mem.Length {
        fifoRpos := 0;
      }
      ok := true;
    }

    /** The writer's critical section: fails and changes nothing when there is no room for buff. */
    method WriteSection(buff: seq<bv8>) returns (ok: bool)
      requires V().Valid() && 0 < |buff| <= V().Size() - fifoWpos
      modifies this, mem
      ensures ok == (|buff| <= V().Size() - old(fifoFill))
      ensures V() == if ok then old(V()).Store(buff) else old(V())
      ensures ok ==> V().Contents() == old(V()).Contents() + buff
    {
      if mem.Length - fifoFill < |buff| {
        return false;
      }
      ghost var was := V();
      StoreNewest(was, buff);
      forall i | 0 <= i < |buff| {
        mem[fifoWpos + i] := buff[i];
      }
      fifoFill := fifoFill + |buff|;
      fifoWpos := fifoWpos + |buff|;
      if fifoWpos >= mem.Length {
        fifoWpos := 0;
      }
      assert mem[..] == was.Store(buff).mem;
      ok := true;
    }
  }

  // ----- the two tasks

  /**
    * Where a task stands in its call, or between calls:
    *   Head   at the top of the loop
    *   Mux    about to take the mutex
    *   Inside holding the mutex
    *   Check  (reader) mutex given back, about to compare the fill level with the low mark
    *   Wait   about to take its own semaphore
    *   Give   about to give the other task's semaphore
    */
  datatype Place = Idle | Head | Mux | Inside | Check | Wait | Give

  datatype Owner = Nobody | Reader | Writer

  datatype State = State(
    ring: View,
    mux: Owner,
    canRead: bool,
    canWrite: bool,
    reader: Place,
    len: nat,             // bytes the reader's call still wants
    writer: Place,
    buff: seq<bv8>,       // bytes the writer's call still holds
    written: seq<bv8>,    // all bytes ever put into the ring
    delivered: seq<bv8>)  // all bytes ever handed to the reader

  /** How many bytes the reader asks for at once: never past the end of the ring. */
  function WantRead(s: State): nat
    requires s.ring.rpos < s.ring.Size()
  {
    Min(Min(s.len, SPIREADSIZE), s.ring.Size() - s.ring.rpos)
  }

  function WantWrite(s: State): nat
    requires s.ring.wpos < s.ring.Size()
  {
    Min(Min(|s.buff|, SPIREADSIZE), s.ring.Size() - s.ring.wpos)
  }

  /** As much as is left of the call, fits a block of 64 and lies before the end of the ring. */
  lemma BlocksAre(s: State, n: nat)
    requires s.ring.Valid()
    ensures s.ring.rpos < s.ring.Size() && s.ring.wpos < s.ring.Size()
    ensures n <= WantRead(s) <==> n <= s.len && n <= 64 && s.ring.rpos + n <= s.ring.Size()
    ensures n <= WantWrite(s) <==> n <= |s.buff| && n <= 64 && s.ring.wpos + n <= s.ring.Size()
  {
  }

  /** After `spiRamFifoInit`: both binary semaphores start out given. */
  predicate Init(s: State) {
    && s.ring.Valid() && s.ring.fill == 0 && s.mux == Nobody && s.canRead && s.canWrite
    && s.reader == s.writer == Idle && s.len == 0 && s.buff == [] && s.written == s.delivered == []
  }

  datatype Event =
    | StartRead(len: nat)
    | StartWrite(buff: seq<bv8>)
    | ReaderStep
    | WriterStep

  predicate ReaderEnabled(s: State) {
    match s.reader
    case Idle => false
    case Mux => s.mux == Nobody
    case Wait => s.canRead
    case _ => true
  }

  predicate WriterEnabled(s: State) {
    match s.writer
    case Idle => false
    case Mux => s.mux == Nobody
    case Wait => s.canWrite
    case _ => true
  }

  predicate Enabled(s: State, e: Event) {
    match e
    case StartRead(_) => s.reader == Idle
    case StartWrite(_) => s.writer == Idle
    case ReaderStep => ReaderEnabled(s)
    case WriterStep => WriterEnabled(s)
  }

  /** `spiRamFifoRead` */
  function ReaderNext(s: State): State
    requires s.ring.Valid() && ReaderEnabled(s)
  {
    match s.reader
    case Head => s.(reader := if s.len > 0 then Mux else Idle)
    case Mux => s.(mux := Reader, reader := Inside)
    case Inside =>
      var n := WantRead(s);
      if s.ring.fill < n then s.(mux := Nobody, reader := Check)
      else s.(ring := s.ring.Take(n), len := s.len - n, mux := Nobody, reader := Give,
              delivered := s.delivered + s.ring.mem[s.ring.rpos..s.ring.rpos + n])
    case Check => s.(reader := if s.ring.fill < FIFO_LOWMARK then Wait else Head)
    case Wait => s.(canRead := false, reader := Head)
    case Give => s.(canWrite := true, reader := Head)
  }

  /** `spiRamFifoWrite` */
  function WriterNext(s: State): State
    requires s.ring.Valid() && WriterEnabled(s)
  {
    match s.writer
    case Head => s.(writer := if s.buff != [] then Mux else Idle)
    case Mux => s.(mux := Writer, writer := Inside)
    case Inside =>
      var n := WantWrite(s);
      if s.ring.Size() - s.ring.fill < n then s.(mux := Nobody, writer := Wait)
      else s.(ring := s.ring.Store(s.buff[..n]), buff := s.buff[n..], mux := Nobody, writer := Give,
              written := s.written + s.buff[..n])
    case Wait => s.(canWrite := false, writer := Head)
    case Give => s.(canRead := true, writer := Head)
    case Check => s
  }

  /**
    * A reader that found too little waits only if, looked at once more, the ring holds less than
    * 112 kilobytes; a writer that found too little room waits in any case. Nothing else changes.
    */
  lemma WhoWaits(s: State)
    requires s.ring.Valid()
    ensures s.reader == Inside ==> (ReaderNext(s).reader == Check <==> s.ring.fill < WantRead(s))
    ensures s.reader == Check ==> ReaderNext(s) == s.(reader := if s.ring.fill < 114688 then Wait else Head)
    ensures s.writer == Inside ==> (WriterNext(s).writer == Wait <==> s.ring.Size() - s.ring.fill < WantWrite(s))
    ensures s.reader == Inside && s.ring.fill < WantRead(s) ==> ReaderNext(s) == s.(mux := Nobody, reader := Check)
    ensures s.writer == Inside && s.ring.Size() - s.ring.fill < WantWrite(s) ==> WriterNext(s) == s.(mux := Nobody, writer := Wait)
  {
    hide s.ring.Take, s.ring.Store, WantRead, WantWrite;
  }

  function Next(s: State, e: Event): State
    requires s.ring.Valid() && Enabled(s, e)
  {
    match e
    case StartRead(len) => s.(reader := Head, len := len)
    case StartWrite(buff) => s.(writer := Head, buff := buff)
    case ReaderStep => ReaderNext(s)
    case WriterStep => WriterNext(s)
  }

  // ----- what every step keeps

  predicate ReaderBusy(s: State) {
    s.reader != Idle && s.reader != Head && s.reader != Give
  }

  predicate WriterBusy(s: State) {
    s.writer != Idle && s.writer != Head && s.writer != Give
  }

  /** The mutex is held exactly by the task inside its critical section. */
  predicate MutexInv(s: State) {
    && (s.mux == Reader <==> s.reader == Inside)
    && (s.mux == Writer <==> s.writer == Inside)
    && s.writer != Check
  }

  /** First in, first out: the ring holds the bytes written and not yet delivered, in order. */
  predicate OrderInv(s: State) {
    s.ring.Valid() && s.written == s.delivered + s.ring.Contents()
  }

  /** No lost wakeup: a waiting task's test would still fail, or its semaphore is given or about to be. */
  predicate WakeupInv(s: State)
    requires s.ring.Valid()
  {
    && (s.reader == Check || s.reader == Wait ==>
          s.ring.fill < WantRead(s) || s.canRead || s.writer == Give)
    && (s.writer == Wait ==>
          s.ring.Size() - s.ring.fill < WantWrite(s) || s.canWrite || s.reader == Give)
  }

  predicate Inv(s: State) {
    && OrderInv(s) && MutexInv(s) && WakeupInv(s)
    && (ReaderBusy(s) ==> s.len > 0) && (s.reader == Idle ==> s.len == 0)
    && (WriterBusy(s) ==> s.buff != []) && (s.writer == Idle ==> s.buff == [])
  }

  lemma InitInv(s: State)
    requires Init(s)
    ensures Inv(s)
  {
  }

  lemma ReaderKeeps(s: State)
    requires Inv(s) && ReaderEnabled(s)
    ensures Inv(ReaderNext(s)) && ReaderNext(s).ring.Size() == s.ring.Size()
    ensures |ReaderNext(s).delivered| + ReaderNext(s).len == |s.delivered| + s.len
    ensures ReaderNext(s).written == s.written && ReaderNext(s).buff == s.buff
  {
    if s.reader == Inside && WantRead(s) <= s.ring.fill {
      ReaderTakes(s);
    } else {
      ReaderMoves(s);
    }
  }

  /** Steps of the reader that leave the ring alone. */
  lemma ReaderMoves(s: State)
    requires Inv(s) && ReaderEnabled(s) && !(s.reader == Inside && WantRead(s) <= s.ring.fill)
    ensures Inv(ReaderNext(s)) && ReaderNext(s).ring.Size() == s.ring.Size()
    ensures |ReaderNext(s).delivered| + ReaderNext(s).len == |s.delivered| + s.len
    ensures ReaderNext(s).written == s.written && ReaderNext(s).buff == s.buff
  {
    SameBytes(s, ReaderNext(s));
    SameWants(s, ReaderNext(s));
    hide OrderInv, WantRead, WantWrite, s.ring.Contents, s.ring.Valid;
  }

  lemma SameWants(s: State, next: State)
    requires s.ring.Valid() && next.ring == s.ring && next.len == s.len && next.buff == s.buff
    ensures WantRead(next) == WantRead(s) && WantWrite(next) == WantWrite(s)
  {
  }

  lemma SameBytes(s: State, next: State)
    requires OrderInv(s) && next.ring == s.ring && next.written == s.written && next.delivered == s.delivered
    ensures s.ring.Valid() && next.ring.Valid() && OrderInv(next)
  {
    hide s.ring.Contents, s.ring.Valid;
  }

  lemma ReaderTakes(s: State)
    requires Inv(s) && s.reader == Inside && WantRead(s) <= s.ring.fill
    ensures Inv(ReaderNext(s)) && ReaderNext(s).ring.Size() == s.ring.Size()
    ensures |ReaderNext(s).delivered| + ReaderNext(s).len == |s.delivered| + s.len
    ensures ReaderNext(s).written == s.written && ReaderNext(s).buff == s.buff
  {
    OldestDelivered(s);
    hide OrderInv, WantRead, s.ring.Contents, s.ring.Valid;
  }

  lemma OldestDelivered(s: State)
    requires OrderInv(s) && s.reader == Inside && WantRead(s) <= s.ring.fill
    ensures OrderInv(ReaderNext(s)) && ReaderNext(s).ring.Valid()
  {
    hide *;
    OrderIs(s);
    var n := WantRead(s);
    var c := s.ring.Contents();
    TakeOldest(s.ring, n);
    Cut(s.delivered, c, n);
    TakesOldest(s);
    OrderMade(ReaderNext(s));
  }

  lemma OrderIs(s: State)
    requires OrderInv(s) && s.reader == Inside && WantRead(s) <= s.ring.fill
    ensures s.ring.Valid() && s.written == s.delivered + s.ring.Contents() && ReaderEnabled(s)
    ensures s.ring.rpos < s.ring.Size() == |s.ring.mem| && s.ring.rpos + WantRead(s) <= |s.ring.mem|
    ensures |s.ring.Contents()| == s.ring.fill
  {
    hide s.ring.Contents;
  }

  lemma TakesOldest(s: State)
    requires s.ring.Valid() && s.reader == Inside && WantRead(s) <= s.ring.fill && s.ring.rpos + WantRead(s) <= |s.ring.mem|
    requires ReaderEnabled(s)
    ensures var n := WantRead(s);
            && ReaderNext(s).ring == s.ring.Take(n) && ReaderNext(s).written == s.written
            && ReaderNext(s).delivered == s.delivered + s.ring.mem[s.ring.rpos..s.ring.rpos + n]
  {
    hide s.ring.Contents, s.ring.Valid, s.ring.Take, WantRead;
  }

  lemma OrderMade(s: State)
    requires s.ring.Valid() && s.written == s.delivered + s.ring.Contents()
    ensures OrderInv(s)
  {
    hide s.ring.Contents, s.ring.Valid;
  }

  lemma WriterKeeps(s: State)
    requires Inv(s) && WriterEnabled(s)
    ensures Inv(WriterNext(s)) && WriterNext(s).ring.Size() == s.ring.Size()
    ensures WriterNext(s).written + WriterNext(s).buff == s.written + s.buff
    ensures WriterNext(s).delivered == s.delivered && WriterNext(s).len == s.len
  {
    if s.writer == Inside && WantWrite(s) <= s.ring.Size() - s.ring.fill {
      WriterStores(s);
    } else {
      SameBytes(s, WriterNext(s));
      hide OrderInv, s.ring.Contents, s.ring.Valid;
    }
  }

  lemma WriterStores(s: State)
    requires Inv(s) && s.writer == Inside && WantWrite(s) <= s.ring.Size() - s.ring.fill
    ensures Inv(WriterNext(s)) && WriterNext(s).ring.Size() == s.ring.Size()
    ensures WriterNext(s).written + WriterNext(s).buff == s.written + s.buff
    ensures WriterNext(s).delivered == s.delivered && WriterNext(s).len == s.len
  {
    NewestStored(s);
    BytesKept(s);
    hide OrderInv, WantWrite, s.ring.Contents, s.ring.Valid, s.ring.Store;
    assert WriterNext(s).mux == Nobody && WriterNext(s).writer == Give;
  }

  lemma BytesKept(s: State)
    requires s.ring.Valid() && s.writer == Inside && WantWrite(s) <= s.ring.Size() - s.ring.fill
    ensures WriterNext(s).written + WriterNext(s).buff == s.written + s.buff
  {
    var n := WantWrite(s);
    hide s.ring.Store, s.ring.Valid, WantWrite;
    assert s.buff[..n] + s.buff[n..] == s.buff;
    assert (s.written + s.buff[..n]) + s.buff[n..] == s.written + (s.buff[..n] + s.buff[n..]);
  }

  lemma NewestStored(s: State)
    requires OrderInv(s) && s.writer == Inside && 0 < WantWrite(s) <= s.ring.Size() - s.ring.fill
    ensures OrderInv(WriterNext(s)) && WriterNext(s).ring.Valid()
    ensures WriterNext(s).ring.Size() == s.ring.Size()
  {
    var b := s.buff[..WantWrite(s)];
    StoreNewest(s.ring, b);
    StoredIs(s);
    hide *;
    Chain(s.delivered, s.ring.Contents(), b);
    OrderOf(s);
    OrderFrom(WriterNext(s), s.ring.Contents() + b);
  }

  lemma StoredIs(s: State)
    requires s.ring.Valid() && s.writer == Inside && 0 < WantWrite(s) <= s.ring.Size() - s.ring.fill
    ensures var t, b := WriterNext(s), s.buff[..WantWrite(s)];
            t.ring == s.ring.Store(b) && t.written == s.written + b && t.delivered == s.delivered
  {
    hide s.ring.Store, WantWrite;
  }

  lemma Chain<T>(a: seq<T>, b: seq<T>, c: seq<T>)
    ensures (a + b) + c == a + (b + c)
  {
  }

  lemma OrderOf(s: State)
    requires OrderInv(s)
    ensures s.ring.Valid() && s.written == s.delivered + s.ring.Contents()
  {
  }

  lemma OrderFrom(s: State, c: seq<bv8>)
    requires s.ring.Valid() && s.ring.Contents() == c && s.written == s.delivered + c
    ensures OrderInv(s)
  {
  }

  /** What the step adds to the bytes handed to the writer, and to the bytes asked of the reader. */
  function Offered(e: Event): seq<bv8> {
    if e.StartWrite? then e.buff else []
  }

  function Asked(e: Event): nat {
    if e.StartRead? then e.len else 0
  }

  lemma StepKeeps(s: State, e: Event)
    requires Inv(s) && Enabled(s, e)
    ensures Inv(Next(s, e)) && Next(s, e).ring.Size() == s.ring.Size()
    ensures Next(s, e).written + Next(s, e).buff == s.written + s.buff + Offered(e)
    ensures |Next(s, e).delivered| + Next(s, e).len == |s.delivered| + s.len + Asked(e)
  {
    hide Inv, ReaderNext, WriterNext;
    if e.ReaderStep? {
      ReaderKeeps(s);
    } else if e.WriterStep? {
      WriterKeeps(s);
    } else {
      NewCallKeeps(s, e);
    }
  }

  lemma NewCallKeeps(s: State, e: Event)
    requires Inv(s) && Enabled(s, e) && (e.StartRead? || e.StartWrite?)
    ensures Inv(Next(s, e)) && Next(s, e).ring == s.ring && Next(s, e).delivered == s.delivered
    ensures Next(s, e).written + Next(s, e).buff == s.written + s.buff + Offered(e)
    ensures Next(s, e).len == s.len + Asked(e)
  {
    hide s.ring.Contents, s.ring.Valid;
  }

  // ----- runs

  /** Every event of the run can happen when its turn comes. */
  ghost predicate Possible(s: State, run: seq<Event>)
    requires Inv(s)
    decreases |run|
  {
    run == [] || (Enabled(s, run[0]) && (StepKeeps(s, run[0]); Possible(Next(s, run[0]), run[1..])))
  }

  ghost function After(s: State, run: seq<Event>): (t: State)
    requires Inv(s) && Possible(s, run)
    ensures Inv(t)
    decreases |run|
  {
    if run == [] then s
    else
      StepKeeps(s, run[0]);
      After(Next(s, run[0]), run[1..])
  }

  /** All bytes handed to `spiRamFifoWrite` in the run, and the number asked of `spiRamFifoRead`. */
  function AllOffered(run: seq<Event>): seq<bv8> {
    if run == [] then [] else Offered(run[0]) + AllOffered(run[1..])
  }

  function AllAsked(run: seq<Event>): nat {
    if run == [] then 0 else Asked(run[0]) + AllAsked(run[1..])
  }

  lemma {:induction false} RunAccounts(s: State, run: seq<Event>)
    requires Inv(s) && Possible(s, run)
    ensures After(s, run).written + After(s, run).buff == s.written + s.buff + AllOffered(run)
    ensures |After(s, run).delivered| + After(s, run).len == |s.delivered| + s.len + AllAsked(run)
    ensures After(s, run).ring.Size() == s.ring.Size()
    decreases |run|
  {
    if run != [] {
      hide Inv, Next, Enabled, Offered, Asked;
      StepKeeps(s, run[0]);
      var t := Next(s, run[0]);
      RunAccounts(t, run[1..]);
      Chain(s.written + s.buff, Offered(run[0]), AllOffered(run[1..]));
    }
  }

  /**
    * First in, first out, in every interleaving: what has been delivered is a prefix
    * of what was handed to the writer, the ring holds what follows, in order, and
    * what the writer still holds comes last.
    */
  lemma FirstInFirstOut(s: State, run: seq<Event>)
    requires Init(s) && Inv(s) && Possible(s, run)
    ensures var t := After(s, run);
            && AllOffered(run) == t.delivered + t.ring.Contents() + t.buff
            && |t.ring.Contents()| == t.ring.fill <= s.ring.Size()
            && |t.delivered| + t.len == AllAsked(run)
  {
    RunAccounts(s, run);
    hide Possible, s.ring.Contents;
    var t := After(s, run);
    assert s.written + s.buff + AllOffered(run) == AllOffered(run);
  }

  // ----- no deadlock

  /** The two tests cannot both fail, whatever the size of the ring: a request never passes the end. */
  lemma OneTestHolds(s: State)
    requires s.ring.Valid()
    ensures WantRead(s) <= s.ring.fill || WantWrite(s) <= s.ring.Size() - s.ring.fill
  {
  }

  /**
    * When neither task can move, both are between calls, or one is and the other
    * waits for what only a new call can bring: bytes, or room.
    */
  lemma NoDeadlock(s: State)
    requires Inv(s) && !ReaderEnabled(s) && !WriterEnabled(s)
    ensures || (s.reader == Idle && s.writer == Idle)
            || (s.reader == Wait && s.writer == Idle && s.ring.fill < WantRead(s))
            || (s.writer == Wait && s.reader == Idle && s.ring.Size() - s.ring.fill < WantWrite(s))
  {
    OneTestHolds(s);
    hide OrderInv, s.ring.Valid, WantRead, WantWrite;
  }

  // ----- every call ends

  function Credit(b: bool): nat {
    if b then 1 else 0
  }

  /** Bytes to move, then wakeups given or about to be given. */
  function Work(s: State): nat {
    3 * (s.len + |s.buff|)
      + (if s.reader == Give then 2 else 0) + (if s.writer == Give then 2 else 0)
      + Credit(s.canRead) + Credit(s.canWrite)
  }

  function ReaderRank(s: State): nat
    requires s.ring.Valid()
  {
    match s.reader
    case Idle => 0
    case Wait => 1
    case Check => if s.ring.fill < WantRead(s) then 2 else 7
    case Give => 2
    case Inside => 3
    case Mux => 4
    case Head => 5
  }

  function WriterRank(s: State): nat {
    match s.writer
    case Idle => 0
    case Wait => 1
    case Check => 0
    case Give => 2
    case Inside => 3
    case Mux => 4
    case Head => 5
  }

  /** Drops with every step that is not a new call. */
  function Measure(s: State): nat
    requires s.ring.Valid()
  {
    16 * Work(s) + ReaderRank(s) + WriterRank(s)
  }

  lemma ReaderProgress(s: State)
    requires Inv(s) && ReaderEnabled(s)
    ensures Inv(ReaderNext(s)) && Measure(ReaderNext(s)) < Measure(s)
  {
    ReaderKeeps(s);
    if s.reader == Inside && WantRead(s) <= s.ring.fill {
      ReadWorks(s);
    } else {
      ReadTurns(s);
    }
  }

  lemma ReadTurns(s: State)
    requires s.ring.Valid() && ReaderEnabled(s) && (s.reader == Inside ==> WantRead(s) > s.ring.fill)
    requires ReaderNext(s).ring.Valid()
    ensures Measure(ReaderNext(s)) < Measure(s)
  {
    hide s.ring.Valid;
  }

  lemma ReadWorks(s: State)
    requires s.ring.Valid() && s.len > 0 && s.reader == Inside && WantRead(s) <= s.ring.fill
    requires ReaderNext(s).ring.Valid()
    ensures Measure(ReaderNext(s)) < Measure(s)
  {
    assert 0 < WantRead(s);
    hide s.ring.Valid, s.ring.Take, WantRead;
  }

  lemma WriterProgress(s: State)
    requires Inv(s) && WriterEnabled(s)
    ensures Inv(WriterNext(s)) && Measure(WriterNext(s)) < Measure(s)
  {
    WriterKeeps(s);
    if s.writer == Inside && WantWrite(s) <= s.ring.Size() - s.ring.fill {
      WriteWorks(s);
    } else {
      WriteTurns(s);
    }
  }

  lemma WriteTurns(s: State)
    requires s.ring.Valid() && WriterEnabled(s) && s.writer != Check
    requires s.writer == Inside ==> WantWrite(s) > s.ring.Size() - s.ring.fill
    requires WriterNext(s).ring.Valid()
    ensures Measure(WriterNext(s)) < Measure(s)
  {
    hide s.ring.Valid;
  }

  lemma WriteWorks(s: State)
    requires s.ring.Valid() && s.buff != [] && s.writer == Inside && WantWrite(s) <= s.ring.Size() - s.ring.fill
    requires WriterNext(s).ring.Valid()
    ensures Measure(WriterNext(s)) < Measure(s)
  {
    assert 0 < WantWrite(s);
    hide s.ring.Valid, s.ring.Store, WantWrite, WantRead;
  }

  predicate NoNewCalls(run: seq<Event>) {
    forall k :: 0 <= k < |run| ==> run[k].ReaderStep? || run[k].WriterStep?
  }

  /** However the two tasks are scheduled, the calls in progress take boundedly many steps. */
  lemma {:induction false} RunsEnd(s: State, run: seq<Event>)
    requires Inv(s) && Possible(s, run) && NoNewCalls(run)
    ensures |run| <= Measure(s)
    decreases |run|
  {
    if run != [] {
      hide Inv, Measure;
      StepProgress(s, run[0]);
      RunsEnd(Next(s, run[0]), run[1..]);
    }
  }

  lemma StepProgress(s: State, e: Event)
    requires Inv(s) && Enabled(s, e) && (e.ReaderStep? || e.WriterStep?)
    ensures Inv(Next(s, e)) && Measure(Next(s, e)) < Measure(s)
  {
    hide Inv, Measure;
    if e.ReaderStep? {
      ReaderProgress(s);
    } else {
      WriterProgress(s);
    }
  }

  lemma {:induction false} NothingNew(run: seq<Event>)
    requires NoNewCalls(run)
    ensures AllOffered(run) == [] && AllAsked(run) == 0
  {
    if run != [] {
      NothingNew(run[1..]);
    }
  }

  /**
    * A read for which the ring and the writer together hold enough bytes completes in
    * every run that goes on as long as some task can move, and it has delivered exactly
    * the next bytes; if what is left then fits the ring, the write completes too.
    */
  lemma CallsComplete(s: State, run: seq<Event>)
    requires Inv(s) && Possible(s, run) && NoNewCalls(run)
    requires !ReaderEnabled(After(s, run)) && !WriterEnabled(After(s, run))
    requires s.len <= s.ring.fill + |s.buff|
    ensures var t := After(s, run);
            && t.reader == Idle
            && t.delivered == (s.delivered + s.ring.Contents() + s.buff)[..|s.delivered| + s.len]
            && (s.ring.fill + |s.buff| - s.len <= s.ring.Size() ==> t.writer == Idle)
  {
    var t := After(s, run);
    RunAccounts(s, run);
    NothingNew(run);
    NoDeadlock(t);
    hide Possible, After, s.ring.Contents, MutexInv, WakeupInv, s.ring.Valid;
    assert s.written + s.buff + [] == s.delivered + s.ring.Contents() + s.buff;
    assert t.written + t.buff == t.delivered + t.ring.Contents() + t.buff;
    assert t.reader == Idle;
    assert t.delivered == (t.delivered + t.ring.Contents() + t.buff)[..|t.delivered|];
  }

  // ----- a reader that asks for no more than there is

  predicate Covered(s: State) {
    s.len <= s.ring.fill && s.reader != Check && s.reader != Wait
  }

  lemma CoveredStep(s: State, e: Event)
    requires Inv(s) && Enabled(s, e) && Covered(s) && !e.StartRead?
    ensures Covered(Next(s, e))
  {
    hide OrderInv, s.ring.Contents;
  }

  /** It never waits for the writer: every prefix of every run keeps it off the semaphore. */
  lemma {:induction false} NeverWaits(s: State, run: seq<Event>)
    requires Inv(s) && Possible(s, run) && Covered(s)
    requires forall k :: 0 <= k < |run| ==> !run[k].StartRead?
    ensures Covered(After(s, run))
    decreases |run|
  {
    if run != [] {
      hide Inv, Covered, Enabled, Next;
      StepKeeps(s, run[0]);
      CoveredStep(s, run[0]);
      NeverWaits(Next(s, run[0]), run[1..]);
    }
  }
}
