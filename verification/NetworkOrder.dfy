/** Which memory bytes the numbers in the prefix theorems stand for. */
module NetworkOrder {
  import opened Blocks
  import opened ByteArrays
  import opened Codec
  import opened StreamBytes
  import opened AddressPrefix

  /** On either host, byte `i` of a stored IPv4 word is digit 3 - i of the number that `Swap` gives. */
  lemma WordBytes4(h: Host4, word: nat, i: nat)
    requires h.Fits(word) && i < 4
    ensures Stored(if h.little then SmallEndian else BigEndian, 4, word)[i] == Digit(h.Swap(word), 3 - i)
  {
    var n := h.Swap(word);
    h.SwapSwap(word);
    StoreOnHost(if h.little then SmallEndian else BigEndian, BigEndian, 4, n);
    StoredByte(4, n, n, i);
  }

  lemma HigherDigit(low: byte, high: nat, i: nat)
    ensures Digit(low + 256 * high, i + 1) == Digit(high, i)
  {
    DivDiv(low + 256 * high, Pow256(i));
  }

  /** The bytes of an IPv6 address are the digits of its number, the most significant first. */
  lemma {:induction false} ValueBytes6(bs: seq<nat>, i: nat)
    requires IsBytes(bs) && i < |bs|
    ensures bs[i] == Digit(Value(bs), |bs| - 1 - i)
  {
    var n := |bs| - 1;
    if i < n {
      ValueBytes6(bs[..n], i);
      HigherDigit(bs[n], Value(bs[..n]), n - 1 - i);
    }
  }

  /** Lengths above 32 have no answer, and those whose int shift is not defined are set apart. */
  lemma AnswerKinds4(h: Host4, word: nat, len: nat)
    requires h.Fits(word)
    ensures (Subnet4(h, word, len) == Null <==> len > 32) && (Subnet4(h, word, len) == Undefined <==> len < 2)
    ensures (Broadcast4(h, word, len) == Null <==> len > 32) && (Broadcast4(h, word, len) == Undefined <==> len < 2)
    ensures (Mask4(h, len) == Null <==> len > 32) && (Mask4(h, len) == Undefined <==> len < 2)
  {
  }
}
