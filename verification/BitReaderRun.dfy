/** Any run of operations on a bit file is the same run on one position in the stream of its bits. */
module BitReaderRun {
  import opened Words
  import opened BitReader

  datatype Op =
    | GetBits(n: nat)
    | Get1Bit
    | FlushBits(n: nat)
    | ByteAlign
    | RewindBits
    | ResetBits(at: nat)
    | GetBitBuffer(bits: nat)

  datatype Answer = Number(n: nat) | Copied(s: Bits)

  /**
    * All there is to know of a reader: its position, and on a word border whether the first
    * word is used up (`bits_left` is 0) or the next one already there (`bits_left` is 32).
    */
  datatype Cursor = Cursor(pos: nat, spent: bool)
  {
    predicate Valid() {
      spent ==> pos % 32 == 0
    }

    /** `bits_left` */
    function Left(): nat {
      if spent then 0 else 32 - pos % 32
    }
  }

  ghost function CursorOf(ld: BitFile): Cursor
    reads ld
    requires ld.Valid()
  {
    Cursor(ld.Pos(), ld.bitsLeft == 0)
  }

  lemma CursorLeft(ld: BitFile)
    requires ld.Valid()
    ensures CursorOf(ld).Valid() && CursorOf(ld).Left() == ld.bitsLeft
  {
    var t, left := ld.tail - 1, ld.bitsLeft;
    assert ld.Pos() == 32 * t - left;
    if 0 < left < 32 {
      assert ld.Pos() == 32 * (t - 1) + (32 - left);
    }
  }

  /** How far the next byte border is. */
  function Skip(p: nat): nat {
    (8 - p % 8) % 8
  }

  /** Where an operation leaves the reader. */
  function Moved(op: Op, c: Cursor): Cursor {
    match op
    case GetBits(n) => Cursor(c.pos + n, c.spent && n == 0)
    case Get1Bit => Cursor(c.pos + 1, c.Left() == 1)
    case FlushBits(n) => Cursor(c.pos + n, n == c.Left() + 32)
    case ByteAlign => Cursor(c.pos + Skip(c.pos), c.spent)
    case RewindBits => Cursor(0, false)
    case ResetBits(at) => Cursor(at, false)
    case GetBitBuffer(bits) => Cursor(c.pos + bits, c.spent && bits == 0)
  }

  /** What an operation answers. */
  function Answered(op: Op, buffer: seq<Byte>, p: nat): Answer {
    match op
    case GetBits(n) => Number(Value(Stream(buffer, p, n)))
    case Get1Bit => Number(if StreamBit(buffer, p) then 1 else 0)
    case ByteAlign => Number(Skip(p))
    case GetBitBuffer(bits) => Copied(Stream(buffer, p, bits))
    case _ => Number(0)
  }

  /**
    * What C defines: up to 32 bits at a time, but not 32 when none is left in the first
    * word; flushes up to the end of the second word; resets into the buffer.
    */
  predicate Legal(op: Op, buffer: seq<Byte>, c: Cursor) {
    match op
    case GetBits(n) => n <= 32 && !(n == 32 && c.spent)
    case FlushBits(n) => n <= c.Left() + 32
    case ResetBits(at) => 4 * (at / 32) <= |buffer|
    case _ => true
  }

  function After(ops: seq<Op>, c: Cursor): Cursor {
    if ops == [] then c else Moved(ops[|ops| - 1], After(ops[..|ops| - 1], c))
  }

  predicate AllLegal(ops: seq<Op>, buffer: seq<Byte>, c: Cursor) {
    forall k :: 0 <= k < |ops| ==> Legal(ops[k], buffer, After(ops[..k], c))
  }

  function Answers(ops: seq<Op>, buffer: seq<Byte>, c: Cursor): (r: seq<Answer>)
    ensures |r| == |ops|
  {
    if ops == [] then []
    else
      var front := ops[..|ops| - 1];
      Answers(front, buffer, c) + [Answered(ops[|ops| - 1], buffer, After(front, c).pos)]
  }

  lemma AlignmentIs(p: nat, skipped: nat)
    requires skipped < 8 && ByteAligned(p + skipped)
    ensures skipped == Skip(p)
  {
  }

  method Perform(ld: BitFile, op: Op) returns (answer: Answer)
    requires ld.Valid() && Legal(op, ld.buffer, CursorOf(ld))
    modifies ld
    ensures ld.Valid() && CursorOf(ld) == Moved(op, old(CursorOf(ld)))
    ensures answer == Answered(op, ld.buffer, old(ld.Pos()))
  {
    CursorLeft(ld);
    answer := Number(0);
    match op {
      case GetBits(n) =>
        hide ld.Valid, ld.Pos, Value, StreamBit;
        ld.NextStream(n);
        var v := ld.GetBits(n);
        answer := Number(v);
      case Get1Bit =>
        hide ld.Valid, ld.Pos, Value, StreamBit;
        var b := ld.Get1Bit();
        answer := Number(b);
      case FlushBits(n) =>
        hide ld.Valid, ld.Pos;
        ld.FlushBits(n);
      case ByteAlign =>
        hide ld.Valid, ld.Pos, ByteAligned, Skip;
        ghost var p := ld.Pos();
        var skipped := ld.ByteAlign();
        AlignmentIs(p, skipped);
        answer := Number(skipped);
      case RewindBits =>
        hide ld.Valid, ld.Pos;
        ld.RewindBits();
      case ResetBits(at) =>
        hide ld.Valid, ld.Pos;
        ld.ResetBits(at);
      case GetBitBuffer(bits) =>
        hide ld.Valid, ld.Pos, StreamBit;
        ld.NextStream(bits);
        var bytes := ld.GetBitBuffer(bits);
        answer := Copied(Stream(bytes[..], 0, bits));
    }
  }

  /** After any run the reader stands where the cursors say, and has answered what the stream says. */
  method Run(ld: BitFile, ops: seq<Op>) returns (answers: seq<Answer>)
    requires ld.Valid() && AllLegal(ops, ld.buffer, CursorOf(ld))
    modifies ld
    ensures ld.Valid() && CursorOf(ld) == After(ops, old(CursorOf(ld)))
    ensures answers == Answers(ops, ld.buffer, old(CursorOf(ld)))
  {
    ghost var start := CursorOf(ld);
    answers := [];
    assert ops[..0] == [];
    hide ld.Valid, ld.Pos, Moved, Answered, Legal;
    for k := 0 to |ops|
      invariant ld.Valid() && CursorOf(ld) == After(ops[..k], start)
      invariant answers == Answers(ops[..k], ld.buffer, start)
    {
      assert ops[..k + 1][..k] == ops[..k];
      var a := Perform(ld, ops[k]);
      answers := answers + [a];
    }
    assert ops[..|ops|] == ops;
  }
}
