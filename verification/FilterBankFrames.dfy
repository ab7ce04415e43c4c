/** Frame after frame through `filter_bank_ltp` and `ifilter_bank`, with one overlap buffer. */
module FilterBankFrames {
  import opened FilterBank
  import opened FilterBankRun

  /** The coefficients of one frame. Eight short blocks, which `filter_bank_ltp` leaves out, are analysed by definition. */
  method AnalyseFrame(fb: Bank, kind: Kind, inData: seq<real>) returns (freq: seq<real>)
    requires fb.Valid() && kind.Valid() && |inData| == 2 * fb.n
    ensures freq == Analysis(fb, kind, inData)
  {
    if kind.sequence.EightShort? {
      freq := Analysis(fb, kind, inData);
    } else {
      freq := FilterBankLtp(fb, kind, inData);
    }
  }

  /**
    * The frames of a legal run, each analysed and synthesised in turn. Whatever the overlap
    * buffer holds at first, each frame but the first gives back its first block, that is,
    * the signal comes out one frame later.
    */
  method RunFrames(fb: Bank, kinds: seq<Kind>, blocks: seq<seq<real>>, overlap: array<real>)
    returns (outs: seq<seq<real>>)
    requires fb.Valid() && Legal(fb, kinds) && |blocks| == |kinds| + 1 && overlap.Length == fb.n
    requires forall k :: 0 <= k < |blocks| ==> |blocks[k]| == fb.n
    modifies overlap
    ensures outs == Decoded(fb, kinds, Encoded(fb, kinds, blocks), old(overlap[..]))
    ensures Aliasing(fb) && Princen(fb) ==> forall k :: 0 < k < |kinds| ==> outs[k] == blocks[k]
  {
    hide *;
    var timeOut := new real[fb.n](_ => 0.0);
    ghost var all := Decoded(fb, kinds, Encoded(fb, kinds, blocks), overlap[..]);
    ghost var before := overlap[..];
    outs := [];
    assert kinds[0..] == kinds && blocks[0..] == blocks;
    for k := 0 to |kinds|
      invariant Legal(fb, kinds[k..]) && |outs| == k && |overlap[..]| == fb.n
      invariant outs + Decoded(fb, kinds[k..], Encoded(fb, kinds[k..], blocks[k..]), overlap[..]) == all
    {
      ghost var was := overlap[..];
      KindAt(fb, kinds, k);
      var freq := AnalyseFrame(fb, kinds[k], blocks[k] + blocks[k + 1]);
      IFilterBank(fb, kinds[k], freq, timeOut, overlap);
      OneFrame(fb, kinds[k..], blocks[k..], was, timeOut[..], overlap[..]);
      assert kinds[k..][1..] == kinds[k + 1..] && blocks[k..][1..] == blocks[k + 1..];
      outs := outs + [timeOut[..]];
    }
    NoFrames(fb, kinds[|kinds|..], blocks[|kinds|..], overlap[..]);
    if Aliasing(fb) && Princen(fb) {
      forall k | 0 < k < |kinds| ensures outs[k] == blocks[k] {
        PerfectReconstruction(fb, kinds, blocks, before, k);
      }
    }
  }

  lemma KindAt(fb: Bank, kinds: seq<Kind>, k: nat)
    requires fb.Valid() && Legal(fb, kinds) && k < |kinds|
    ensures kinds[k].Valid()
  {
    hide fb.Valid;
  }

  lemma OneFrame(fb: Bank, kinds: seq<Kind>, blocks: seq<seq<real>>, was: seq<real>, out: seq<real>, after: seq<real>)
    requires fb.Valid() && Legal(fb, kinds) && |blocks| == |kinds| + 1 && kinds != [] && kinds[0].Valid()
    requires forall k :: 0 <= k < |blocks| ==> |blocks[k]| == fb.n
    requires |was| == |out| == |after| == fb.n
    requires OverlapAdded(fb.n, Frame(fb, kinds[0], Analysis(fb, kinds[0], blocks[0] + blocks[1])), was, out, after)
    ensures Legal(fb, kinds[1..])
    ensures Decoded(fb, kinds, Encoded(fb, kinds, blocks), was)
         == [out] + Decoded(fb, kinds[1..], Encoded(fb, kinds[1..], blocks[1..]), after)
  {
    hide *;
    EncodedRest(fb, kinds, blocks);
    DecoderStep(fb, kinds, Encoded(fb, kinds, blocks), was, out, after);
  }

  lemma NoFrames(fb: Bank, kinds: seq<Kind>, blocks: seq<seq<real>>, overlap: seq<real>)
    requires fb.Valid() && kinds == [] && Legal(fb, kinds) && |blocks| == 1 && |blocks[0]| == fb.n && |overlap| == fb.n
    ensures Decoded(fb, kinds, Encoded(fb, kinds, blocks), overlap) == []
  {
    hide fb.Valid;
  }
}
