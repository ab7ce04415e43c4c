/** The two spectral decoders, on a bit file and on a register, read the same codeword the same way. */
module HuffmanAgree {
  import opened Words
  import opened HcrWords
  import opened BitReader
  import opened Codewords
  import opened HuffmanHcr
  import opened Huffman

  /**
    * `huffman_spectral_data` and `huffman_spectral_data_2` on the same bits: a register that
    * holds a whole codeword, and a bit file on which those bits come next, give the same
    * values for the same number of bits.
    */
  method BothDecode(t: Tables, cb: nat, r: Register, ld: BitFile, sp: array<int>, sp2: array<int>)
    returns (err: nat, r': Register, ret: int)
    requires WellFormed(t) && IsSpectral(cb) && r.Valid() && ld.Valid() && sp != sp2
    requires Width(cb) <= sp.Length && Width(cb) <= sp2.Length
    requires ld.Next(r.len) == r.Content() && Decode(t, cb, r.Content()).Done?
    modifies ld, sp, sp2
    ensures err == 0 && ret >= 0 && sp[..Width(cb)] == sp2[..Width(cb)]
    ensures ld.Valid() && r'.len == r.len - (ld.Pos() - old(ld.Pos())) && r'.bufa == r.bufa && r'.bufb == r.bufb
  {
    ghost var o := Decode(t, cb, r.Content());
    ghost var start := ld.Pos();
    hide Decode, WellFormed, Register.Content, Register.Valid, ld.Valid, ld.Pos, ld.Next;
    err := SpectralData(t, cb, ld, sp, r.len);
    r', ret := SpectralData2(t, cb, r, sp2, 0);
    ContentLength(r);
  }

  lemma ContentLength(r: Register)
    ensures |r.Content()| == r.len
  {
  }

  /** On any proper prefix of a codeword the register decoder answers -1. */
  method PrefixFails(t: Tables, cb: nat, w: Bits, k: nat, r: Register, sp: array<int>) returns (ret: int)
    requires WellFormed(t) && IsSpectral(cb) && r.Valid() && Width(cb) <= sp.Length
    requires Decode(t, cb, w).Done? && Decode(t, cb, w).n == |w| && k < |w| && r.Content() == w[..k]
    modifies sp
    ensures ret == -1
  {
    ProperPrefixIsShort(t, cb, w, k);
    hide Decode, WellFormed, Register.Content;
    var r';
    r', ret := SpectralData2(t, cb, r, sp, 0);
  }
}
