/** `reordered_spectral_data` as a whole: the list of codewords is made from the sections, then decoded. */
module HcrFrame {
  import opened Words
  import opened BitReader
  import opened Codewords
  import opened Hcr
  import opened HcrConservation
  import opened HcrStepTwo
  import opened HcrLists
  import opened HcrJob
  import opened HcrDecode
  import opened HcrRegisters
  import opened HcrPresort

  /** There is only one list to agree on. */
  lemma {:induction false} OneList(ics: Ics, er: bool, ws: seq<Word>, ws': seq<Word>, cur: Word)
    requires Ranked(ics, er, ws, cur) && Ranked(ics, er, ws', cur)
    ensures ws == ws'
    decreases |ws|
  {
    hide Belongs, Earlier, Ranked;
    if ws == [] {
      if ws' != [] {
        OneHasAll(ics, er, ws, ws', cur);
      }
    } else {
      var n, x := |ws| - 1, ws[|ws| - 1];
      SameLast(ics, er, ws, ws', cur);
      assert ws' != [] && ws'[|ws'| - 1] == x;
      DropLast(ics, er, ws, cur);
      DropLast(ics, er, ws', cur);
      OneList(ics, er, ws[..n], ws'[..|ws'| - 1], x);
      assert ws == ws[..n] + [x];
      assert ws' == ws'[..|ws'| - 1] + [x];
    }
  }

  lemma OneHasAll(ics: Ics, er: bool, ws: seq<Word>, ws': seq<Word>, cur: Word)
    requires Ranked(ics, er, ws, cur) && Ranked(ics, er, ws', cur) && ws' != []
    ensures ws != []
  {
    hide Belongs, Earlier;
    assert ws'[0] in ws;
  }

  lemma SameLast(ics: Ics, er: bool, ws: seq<Word>, ws': seq<Word>, cur: Word)
    requires Ranked(ics, er, ws, cur) && Ranked(ics, er, ws', cur) && ws != []
    ensures ws' != [] && ws'[|ws'| - 1] == ws[|ws| - 1]
  {
    hide Belongs, Earlier;
    var x := ws[|ws| - 1];
    assert x in ws';
    var q :| 0 <= q < |ws'| && ws'[q] == x;
    var y := ws'[|ws'| - 1];
    if q < |ws'| - 1 {
      assert y in ws;
      var p :| 0 <= p < |ws| && ws[p] == y;
      NotBoth(x, y);
      assert Earlier(x, y);
    }
  }

  lemma NotBoth(x: Word, y: Word)
    ensures !(Earlier(x, y) && Earlier(y, x)) && !Earlier(x, x)
  {
  }

  lemma DropLast(ics: Ics, er: bool, ws: seq<Word>, cur: Word)
    requires Ranked(ics, er, ws, cur) && ws != []
    ensures Ranked(ics, er, ws[..|ws| - 1], ws[|ws| - 1])
  {
    hide Belongs, Earlier;
    var n, x := |ws| - 1, ws[|ws| - 1];
    forall y | Belongs(ics, er, y) && Earlier(y, x) ensures y in ws[..n] {
      EarlierTrans(y, x, cur);
      NotBoth(y, x);
      NotBoth(x, x);
      assert y in ws;
      var p :| 0 <= p < |ws| && ws[p] == y;
    }
  }

  /** The sections put the codewords where the decoder needs them: apart, in the frame, at most 512. */
  lemma PlacesGood(list: Listing, ics: Ics, er: bool, frame: nat, ws: seq<Word>)
    requires ics.Valid(frame) && frame <= 1024 && Complete(ics, er, ws) && Spells(list.cbs, list.sps, ws) && WellFormed(list.t)
    ensures list.Legal() && |list.cbs| <= 512 && GoodPlan(Places(list), frame)
  {
    hide Complete, WellFormed, ics.Valid, Apart;
    CodewordsBound(ics, er, frame, ws);
    forall i | 0 <= i < |list.cbs| ensures IsSpectral(list.cbs[i]) && list.sps[i] + Width(list.cbs[i]) <= frame {
      ListedInFrame(ics, er, frame, ws, i);
    }
    forall i, j | 0 <= i < j < |list.cbs| ensures Apart(list.sps[i], Width(list.cbs[i]), list.sps[j], Width(list.cbs[j])) {
      ListedApart(ics, er, frame, ws, i, j);
    }
  }

  /**
    * `reordered_spectral_data` on any data: whatever the sections of a frame of up to 1024
    * lines and whatever the stream, what the decoder on lists decodes ends up in its place.
    */
  method AnyFrame(ghost list: Listing, ghost ws: seq<Word>, ghost data: Marks, t: Tables, ics: Ics, er: bool,
                  longest: nat, spDataLen: nat, ld: BitFile, spectral: array<int>)
    returns (err: nat)
    requires ics.Valid(spectral.Length) && spectral.Length <= 1024 && WellFormed(t)
    requires Complete(ics, er, ws) && Spells(list.cbs, list.sps, ws) && list.t == t && list.longest == longest
    requires ws != [] && 0 < longest <= spDataLen ==>
               && ld.Valid() && |data| == spDataLen && BitsOf(data) == ld.Next(spDataLen) && Defined(list, ld.bitsLeft)
               && list.Legal() && RegistersHold(list, data)
    modifies ld, spectral
    ensures spDataLen == 0 ==> err == 0
    ensures 0 < spDataLen && (ws == [] || longest == 0 || spDataLen < longest) ==> err == 10
    ensures spDataLen < longest || longest == 0 || ws == [] ==> spectral[..] == old(spectral[..])
    ensures list.Legal() && |list.cbs| == |ws| && GoodPlan(Places(list), spectral.Length)
    ensures ws != [] && 0 < longest <= spDataLen ==>
              && err == 0 && Frame(Places(list), old(spectral[..]), spectral[..])
              && list.Segments(|data|) > 0 && forall i :: 0 <= i < |ws| ==> Placed(list, data, i, spectral[..])
  {
    hide *;
    var cbs, sps, ws' := Presort(ics, er, spectral.Length);
    CompleteIs(ics, er, ws');
    Agreed(ics, er, list, ws, ws', cbs, sps);
    PlacesGood(list, ics, er, spectral.Length, ws);
    assert list == Listing(t, cbs, sps, longest);
    err := ReorderedSpectralData(t, cbs, sps, longest, spDataLen, ld, spectral, data);
  }

  /**
    * And what an encoder of section 8.5.3.3 sends: every codeword of every section ends up
    * decoded in its place.
    */
  method ReorderedFrame(ghost job: Job, ghost ws: seq<Word>, t: Tables, ics: Ics, er: bool, longest: nat, spDataLen: nat,
                        ld: BitFile, spectral: array<int>)
    returns (err: nat)
    requires ics.Valid(spectral.Length) && spectral.Length <= 1024 && WellFormed(t)
    requires Complete(ics, er, ws) && Spells(job.list.cbs, job.list.sps, ws)
    requires t == job.list.t && longest == job.list.longest && spDataLen == job.len
    requires ws != [] && 0 < longest <= spDataLen ==>
               && job.FrameFits() && JobHolds(job)
               && ld.Valid() && Defined(job.list, ld.bitsLeft) && job.CarriedBy(ld.Next(spDataLen))
    modifies ld, spectral
    ensures spDataLen == 0 ==> err == 0
    ensures 0 < spDataLen && (ws == [] || longest == 0 || spDataLen < longest) ==> err == 10
    ensures spDataLen < longest || longest == 0 || ws == [] ==> spectral[..] == old(spectral[..])
    ensures ws != [] && 0 < longest <= spDataLen ==>
              && err == 0 && |job.words| == |ws| == |job.list.cbs| && |job.list.sps| == |ws|
              && forall i :: 0 <= i < |ws| ==> ValuesAt(t, job.list.cbs[i], job.words[i], job.list.sps[i], spectral[..])
  {
    hide *;
    ghost var data := [];
    if ws != [] && 0 < longest <= spDataLen {
      data := MarksOf(ld.Next(spDataLen));
      FrameParts(job);
      RegistersExact(job, data);
    }
    err := AnyFrame(job.list, ws, data, t, ics, er, longest, spDataLen, ld, spectral);
    if ws != [] && 0 < longest <= spDataLen {
      forall i | 0 <= i < |ws|
        ensures i < |job.words| && |job.list.sps| == |ws|
        ensures ValuesAt(t, job.list.cbs[i], job.words[i], job.list.sps[i], spectral[..])
      {
        FrameRoundTrip(job, data, i);
        CodewordAt(job, i);
        PlacedIs(job.list, data, i, job.words[i], spectral[..]);
      }
      FrameParts(job);
      ListingIs(job.list);
    }
  }

  lemma PlacedIs(list: Listing, data: Marks, i: nat, w: Bits, sp: seq<int>)
    requires list.Legal() && list.Segments(|data|) > 0 && i < |list.cbs| && Placed(list, data, i, sp)
    requires IsSpectral(list.cbs[i]) && list.Result(data, i) == Decode(list.t, list.cbs[i], w)
    requires Decode(list.t, list.cbs[i], w).Done? && IsCodeword(list.t, list.cbs[i], w)
    ensures |list.sps| == |list.cbs| && ValuesAt(list.t, list.cbs[i], w, list.sps[i], sp)
  {
    hide WellFormed, Decode, Listing.Result, IsCodeword;
  }

  lemma CompleteIs(ics: Ics, er: bool, ws: seq<Word>)
    requires Ranked(ics, er, ws, Counters(Books(er), 0, 0, 0, 0, 0))
    ensures Complete(ics, er, ws)
  {
    hide Ranked;
  }

  lemma Agreed(ics: Ics, er: bool, list: Listing, ws: seq<Word>, ws': seq<Word>, cbs: seq<nat>, sps: seq<nat>)
    requires Complete(ics, er, ws) && Spells(list.cbs, list.sps, ws)
    requires Complete(ics, er, ws') && Spells(cbs, sps, ws')
    ensures cbs == list.cbs && sps == list.sps && |ws| == |cbs|
  {
    hide Ranked;
    OneList(ics, er, ws, ws', Counters(Books(er), 0, 0, 0, 0, 0));
  }
}
