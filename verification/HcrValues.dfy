/** Values in, values out: quantised values through encoder, segments and decoder. */
module HcrValues {
  import opened Words
  import opened BitReader
  import opened Codewords
  import opened CodewordsEncode
  import opened HcrSchedule
  import opened Hcr
  import opened HcrPresort
  import opened HcrConservation
  import opened HcrStepTwo
  import opened HcrLists
  import opened HcrWidths
  import opened HcrJob
  import opened HcrDecode
  import opened HcrRegisters
  import opened HcrFrame

  /** Codeword i of the frame is made from its table codeword and the values vals[i]. */
  ghost predicate MadeFrom(job: Job, vals: seq<seq<int>>, heads: seq<Bits>)
    requires job.Legal()
  {
    && |vals| == |heads| == |job.words|
    && forall i :: 0 <= i < |job.words| ==> WordMadeFrom(job.list.t, job.list.cbs[i], job.words[i], vals[i], heads[i])
  }

  ghost predicate WordMadeFrom(t: Tables, cb: nat, w: Bits, vals: seq<int>, head: Bits)
    requires WellFormed(t) && IsSpectral(cb)
  {
    CanCarry(cb, vals) && IsTableWord(t, cb, vals, head) && w == Encode(cb, vals, head)
  }

  lemma WordDecodes(t: Tables, cb: nat, w: Bits, vals: seq<int>, head: Bits)
    requires WellFormed(t) && IsSpectral(cb) && WordMadeFrom(t, cb, w, vals, head)
    ensures IsCodeword(t, cb, w) && Decode(t, cb, w) == Done(vals, |w|) && |vals| == Width(cb)
  {
    hide WellFormed, Decode, IsTableWord, Encode;
    EncodeDecodes(t, cb, vals, head);
  }

  lemma MadeAt(job: Job, vals: seq<seq<int>>, heads: seq<Bits>, i: nat)
    requires job.Legal() && MadeFrom(job, vals, heads) && i < |job.words|
    ensures WellFormed(job.list.t) && i < |job.list.cbs| && IsSpectral(job.list.cbs[i]) && i < |vals|
    ensures IsCodeword(job.list.t, job.list.cbs[i], job.words[i]) && |vals[i]| == Width(job.list.cbs[i])
    ensures Decode(job.list.t, job.list.cbs[i], job.words[i]) == Done(vals[i], |job.words[i]|)
  {
    hide WellFormed, IsCodeword, Decode, WordMadeFrom;
    WordDecodes(job.list.t, job.list.cbs[i], job.words[i], vals[i], heads[i]);
  }

  /**
    The widths of the segments are wide enough: with words of the standard's lengths and moderate
    values, priority codewords fit as soon as no codeword exceeds the longest length sent.
   */
  lemma PrioritiesHaveRoom(job: Job, vals: seq<seq<int>>, heads: seq<Bits>)
    requires job.Legal() && MadeFrom(job, vals, heads)
    requires forall cb :: 1 <= cb <= 11 ==> WordLengths(job.list.t, cb)
    requires forall i :: 0 <= i < |job.words| ==> |job.words[i]| <= job.list.longest && Moderate(job.list.cbs[i], vals[i])
    ensures job.PrioritiesFit()
  {
    hide WellFormed, WordMadeFrom, WordLengths, MaxCwLen, Moderate;
    forall g | 0 <= g < |job.words|
      ensures |job.words[g]| <= SegWidth(job.list.cbs[g], job.list.longest)
    {
      MadeAt(job, vals, heads, g);
      WordHasRoom(job.list.t, job.list.cbs[g], job.words[g], vals[g], heads[g]);
    }
  }

  lemma WordHasRoom(t: Tables, cb: nat, w: Bits, vals: seq<int>, head: Bits)
    requires WellFormed(t) && IsSpectral(cb) && WordMadeFrom(t, cb, w, vals, head)
    requires WordLengths(t, BookNumber(cb)) && Moderate(cb, vals)
    ensures |w| <= MaxCwLen(cb)
  {
    hide WellFormed, IsTableWord, Encode, WordLengths, Moderate;
    WidthSuffices(t, cb, vals, head);
  }

  /** What the sender has to see to besides the codewords themselves: everything fits. */
  ghost predicate RoomFor(job: Job) {
    job.Legal() && 0 < job.Segments() && job.PrioritiesFit() && Fits(job.Layout())
  }

  lemma MadeFits(job: Job, vals: seq<seq<int>>, heads: seq<Bits>)
    requires RoomFor(job) && job.Legal() && MadeFrom(job, vals, heads)
    ensures job.FrameFits()
  {
    hide WellFormed, IsCodeword, Decode, MadeFrom, Fits, Job.Layout, Job.Segments, Job.PrioritiesFit;
    forall i | 0 <= i < |job.words| ensures IsCodeword(job.list.t, job.list.cbs[i], job.words[i]) {
      MadeAt(job, vals, heads, i);
    }
  }

  /** On lists, for every frame that fits its segments: each codeword is decoded to its values. */
  lemma ValuesReturn(job: Job, vals: seq<seq<int>>, heads: seq<Bits>, data: Marks, i: nat)
    requires RoomFor(job) && MadeFrom(job, vals, heads) && job.CarriedBy(BitsOf(data)) && i < |job.list.cbs|
    ensures |data| == job.len && i < |vals| && i < |job.words|
    ensures job.list.Result(data, i) == Done(vals[i], |job.words[i]|)
  {
    hide *;
    RoomIs(job);
    MadeFits(job, vals, heads);
    FrameRoundTrip(job, data, i);
    MadeAt(job, vals, heads, i);
  }

  lemma RoomIs(job: Job)
    requires RoomFor(job)
    ensures job.Legal() && job.list.Legal() && 0 < job.Segments() && job.PrioritiesFit() && |job.words| == |job.list.cbs|
  {
    hide WellFormed, Fits;
  }

  /** In the arrays: `reordered_spectral_data` leaves the values of every codeword at its place. */
  method ReorderedValues(ghost job: Job, ghost vals: seq<seq<int>>, ghost heads: seq<Bits>, ghost ws: seq<Word>,
                         t: Tables, ics: Ics, er: bool, longest: nat, spDataLen: nat, ld: BitFile, spectral: array<int>)
    returns (err: nat)
    requires ics.Valid(spectral.Length) && spectral.Length <= 1024
    requires Complete(ics, er, ws) && Spells(job.list.cbs, job.list.sps, ws) && ws != []
    requires t == job.list.t && longest == job.list.longest && spDataLen == job.len && 0 < longest <= spDataLen
    requires RoomFor(job) && MadeFrom(job, vals, heads) && JobHolds(job)
    requires ld.Valid() && Defined(job.list, ld.bitsLeft) && job.CarriedBy(ld.Next(spDataLen))
    modifies ld, spectral
    ensures err == 0 && |vals| == |ws| == |job.list.cbs| == |job.list.sps|
    ensures forall i :: 0 <= i < |ws| ==>
              && job.list.sps[i] + Width(job.list.cbs[i]) <= spectral.Length
              && spectral[job.list.sps[i]..job.list.sps[i] + Width(job.list.cbs[i])] == vals[i]
  {
    hide *;
    RoomIs(job);
    MadeFits(job, vals, heads);
    MadeSizes(job, vals, heads);
    ListingIs(job.list);
    err := ReorderedFrame(job, ws, t, ics, er, longest, spDataLen, ld, spectral);
    forall i | 0 <= i < |ws|
      ensures job.list.sps[i] + Width(job.list.cbs[i]) <= spectral.Length
      ensures spectral[job.list.sps[i]..job.list.sps[i] + Width(job.list.cbs[i])] == vals[i]
    {
      MadeAt(job, vals, heads, i);
      ValuesAre(t, job.list.cbs[i], job.words[i], vals[i], job.list.sps[i], spectral[..]);
    }
  }

  lemma MadeSizes(job: Job, vals: seq<seq<int>>, heads: seq<Bits>)
    requires job.Legal() && MadeFrom(job, vals, heads)
    ensures |vals| == |job.words|
  {
  }

  lemma ValuesAre(t: Tables, cb: nat, w: Bits, vals: seq<int>, at: nat, sp: seq<int>)
    requires WellFormed(t) && ValuesAt(t, cb, w, at, sp) && IsSpectral(cb) && Decode(t, cb, w) == Done(vals, |w|)
    ensures at + Width(cb) <= |sp| && sp[at..at + Width(cb)] == vals
  {
    hide WellFormed, Decode;
  }
}
