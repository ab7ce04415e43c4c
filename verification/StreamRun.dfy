/** Any sequence of fills, reads and relative seeks on a stream buffer, with its account. */
module StreamRun {
  import opened StreamBuffer

  datatype Op = Fill | Read(n: nat) | Seek(offset: nat)

  /**
    * What came of an operation. Stopped stands for a fill that asked for more than fits,
    * and for a seek that never ends.
    */
  datatype Event = Filled(n: nat) | Took(bytes: seq<bv8>) | Refused | Skipped(n: nat) | Stopped

  function Consumed(e: Event): nat {
    match e
    case Took(bytes) => |bytes|
    case Skipped(n) => n
    case _ => 0
  }

  function Init(log: seq<Event>): (r: seq<Event>)
    requires log != []
    ensures |r| == |log| - 1
  {
    log[..|log| - 1]
  }

  function Total(log: seq<Event>): nat {
    if log == [] then 0 else Total(Init(log)) + Consumed(log[|log| - 1])
  }

  predicate Fits(op: Op, e: Event) {
    match op
    case Fill => e.Filled? || e.Stopped?
    case Read(n) => (e.Took? && |e.bytes| == n) || e.Refused? || e.Stopped?
    case Seek(offset) => e == Skipped(offset) || e.Stopped?
  }

  /** A read took the bytes of the stream from position at on; a seek stayed inside the stream. */
  predicate InPlace(e: Event, at: nat, stream: seq<bv8>) {
    && (e.Took? || e.Skipped? ==> at + Consumed(e) <= |stream|)
    && (e.Took? ==> e.bytes == stream[at..at + |e.bytes|])
  }

  /** The operations were answered in turn, each at the place that the events before it lead to. */
  ghost predicate Kept(ops: seq<Op>, log: seq<Event>, stream: seq<bv8>, start: nat) {
    |log| <= |ops| && (log != [] ==> Kept(ops, Init(log), stream, start) && Answers(ops, log, stream, start))
  }

  ghost predicate Answers(ops: seq<Op>, log: seq<Event>, stream: seq<bv8>, start: nat)
    requires 0 < |log| <= |ops|
  {
    Fits(ops[|log| - 1], log[|log| - 1]) && InPlace(log[|log| - 1], start + Total(Init(log)), stream)
  }

  /** The same, event by event. */
  lemma {:induction false} KeptAt(ops: seq<Op>, log: seq<Event>, stream: seq<bv8>, start: nat, k: nat)
    requires Kept(ops, log, stream, start) && k < |log|
    ensures Fits(ops[k], log[k]) && InPlace(log[k], start + Total(log[..k]), stream)
  {
    if k < |log| - 1 {
      KeptAt(ops, Init(log), stream, start, k);
      assert Init(log)[..k] == log[..k];
    }
  }

  lemma KeptSnoc(ops: seq<Op>, log: seq<Event>, e: Event, stream: seq<bv8>, start: nat)
    requires Kept(ops, log, stream, start) && |log| < |ops|
    requires Fits(ops[|log|], e) && InPlace(e, start + Total(log), stream)
    ensures Kept(ops, log + [e], stream, start) && Total(log + [e]) == Total(log) + Consumed(e)
  {
    assert Init(log + [e]) == log;
  }

  /** One operation. */
  method Perform(buf: Buffer, src: Source, op: Op) returns (e: Event)
    requires buf.Valid()
    modifies buf, buf.base, src
    ensures buf.Valid() && buf.base == old(buf.base) && buf.len == old(buf.len)
    ensures buf.Stream(src) == old(buf.Stream(src)) && old(buf.taken) <= buf.taken
    ensures Fits(op, e) && (!e.Stopped? ==> InPlace(e, old(buf.used), buf.Stream(src)))
    ensures old(buf.used) <= buf.used && (!e.Stopped? ==> buf.used == old(buf.used) + Consumed(e))
    ensures old(src.Quiet()) ==> src.Quiet()
    ensures old(src.Quiet()) && e.Stopped? ==>
              op.Seek? && (buf.len == 0 || old(buf.used) + op.offset > |buf.Stream(src)|)
  {
    hide buf.Valid;
    match op {
      case Fill =>
        var r := buf.FillReadBuffer(src);
        e := if r.Overrun? then Stopped else Filled(r.n);
      case Read(n) =>
        var r, bytes := buf.BufRead(n, src);
        e := if r.Overrun? then Stopped else if r.Failed? then Refused else Took(bytes);
      case Seek(offset) =>
        var r := buf.BufSeekRel(offset, src);
        e := if r.Done? then Skipped(offset) else Stopped;
    }
  }

  /**
    * A run, up to the first operation that does not come back: the stream stays the same,
    * every read that succeeds has taken exactly the bytes after all that was read and
    * skipped before, and what is consumed and what is unread add up to what was taken
    * from the FIFO. While the writer is quiet, only a seek past the end of the stream
    * keeps a run from its end.
    */
  method Run(buf: Buffer, src: Source, ops: seq<Op>) returns (log: seq<Event>, stopped: bool)
    requires buf.Valid()
    modifies buf, buf.base, src
    ensures buf.Valid() && buf.Stream(src) == old(buf.Stream(src))
    ensures Kept(ops, log, buf.Stream(src), old(buf.used))
    ensures old(buf.used) + Total(log) <= buf.used && buf.used + buf.Unread() == |buf.taken|
    ensures !stopped ==> |log| == |ops| && buf.used == old(buf.used) + Total(log)
                         && buf.bytesConsumed == (old(buf.used) + Total(log)) % 0x1_0000_0000
    ensures stopped ==> |log| < |ops|
    ensures stopped && old(src.Quiet()) ==>
              ops[|log|].Seek? &&
              (buf.len == 0 || old(buf.used) + Total(log) + ops[|log|].offset > |buf.Stream(src)|)
  {
    ghost var stream, start := buf.Stream(src), buf.used;
    log, stopped := [], false;
    hide *;
    NothingYet(ops, stream, start);
    for k := 0 to |ops|
      invariant buf.Valid() && buf.base == old(buf.base) && buf.Stream(src) == stream && |log| == k
      invariant !stopped && Kept(ops, log, stream, start) && buf.used == start + Total(log)
      invariant old(src.Quiet()) ==> src.Quiet()
    {
      var e := Perform(buf, src, ops[k]);
      if e.Stopped? {
        AccountOf(buf);
        stopped := true;
        return;
      }
      KeptSnoc(ops, log, e, stream, start);
      log := log + [e];
    }
    AccountOf(buf);
  }

  lemma NothingYet(ops: seq<Op>, stream: seq<bv8>, start: nat)
    ensures Kept(ops, [], stream, start) && Total([]) == 0
  {
  }

  lemma AccountOf(buf: Buffer)
    requires buf.Valid()
    ensures buf.used + buf.Unread() == |buf.taken| && buf.bytesConsumed == buf.used % 0x1_0000_0000
  {
    assert |buf.base[buf.readPos..buf.writePos]| == |buf.taken[buf.used..]|;
  }
}
