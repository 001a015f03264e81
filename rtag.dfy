/**
 * The IEEE 802.1CB redundancy tag (R-TAG, clause 7.8 of IEEE 802.1CB-2017) as the analyzer
 * finds it in a captured frame and as the builders write it: EtherType 0xF1C1, two reserved
 * bytes, the 16-bit sequence number and the 16-bit next protocol, all big-endian.
 */
module RTag {
  import opened Bytes

  const RTAG_ETHERTYPE: U16 := 0xF1C1

  /** The R-TAG EtherType bytes `F1 C1` sit at offset i. */
  predicate PairAt(b: seq<Byte>, i: int) {
    0 <= i && i + 1 < |b| && b[i] == 0xF1 && b[i + 1] == 0xC1
  }

  /** `has_rtag`: the buffer holds `F1 C1` somewhere, at any offset. */
  predicate HasRTag(b: seq<Byte>) {
    exists i :: 0 <= i < |b| && PairAt(b, i)
  }

  /** `F1 C1 00 00` at offset i: the EtherType followed by a zero reserved field. */
  predicate MarkerAt(b: seq<Byte>, i: int) {
    0 <= i && i + 4 <= |b| && PairAt(b, i) && b[i + 2] == 0x00 && b[i + 3] == 0x00
  }

  ghost predicate ContainsMarker(b: seq<Byte>) {
    exists i :: MarkerAt(b, i)
  }

  /**
   * A candidate `extract_sequence` accepts: the marker, with the two sequence bytes after it
   * inside the buffer (the scan runs over `range(len - 5)`, so i + 6 <= len).
   */
  predicate TagAt(b: seq<Byte>, i: int) {
    MarkerAt(b, i) && i + 6 <= |b|
  }

  /** The big-endian sequence number of the tag at offset i. */
  function SequenceAt(b: seq<Byte>, i: int): U16
    requires TagAt(b, i)
  {
    ReadU16(b, i + 4)
  }

  /** The offset of the leftmost accepted candidate at or after i. */
  function FirstTagFrom(b: seq<Byte>, i: nat): (r: Option<nat>)
    ensures r.Some? ==> i <= r.value && TagAt(b, r.value)
    decreases |b| - i
  {
    if i + 6 > |b| then None
    else if TagAt(b, i) then Some(i)
    else FirstTagFrom(b, i + 1)
  }

  /** The scan finds the leftmost candidate at or after i, or there is none. */
  lemma {:induction false} FirstTagFromFinds(b: seq<Byte>, i: nat)
    ensures var r := FirstTagFrom(b, i);
      && (r.Some? ==> forall j :: i <= j < r.value ==> !TagAt(b, j))
      && (r.None? ==> forall j :: i <= j ==> !TagAt(b, j))
    decreases |b| - i
  {
    if i + 6 <= |b| && !TagAt(b, i) {
      FirstTagFromFinds(b, i + 1);
    }
  }

  /**
   * `extract_sequence`: the sequence number after the leftmost `F1 C1 00 00` that has two more
   * bytes behind it. A candidate whose reserved field is not zero is passed over and the scan
   * goes on; the next-protocol field is never read.
   */
  function ExtractSequence(b: seq<Byte>): (r: Option<int>)
    ensures r.Some? ==> 0 <= r.value < 0x1_0000
  {
    match FirstTagFrom(b, 0)
    case None => None
    case Some(i) => Some(SequenceAt(b, i))
  }

  /** Nothing is extracted exactly when no offset holds `F1 C1 00 00` with two bytes behind it. */
  lemma ExtractNone(b: seq<Byte>)
    ensures ExtractSequence(b).None? <==> forall i :: !TagAt(b, i)
  {
    FirstTagFromFinds(b, 0);
  }

  /** The result is the sequence number of the leftmost accepted candidate. */
  lemma ExtractLeftmost(b: seq<Byte>, k: int)
    requires TagAt(b, k) && forall j :: 0 <= j < k ==> !TagAt(b, j)
    ensures ExtractSequence(b) == Some(SequenceAt(b, k))
  {
    FirstTagFromFinds(b, 0);
    var r := FirstTagFrom(b, 0);
    assert r.Some?;
    assert r.value == k;
  }

  /** A sequence number that was extracted comes from the leftmost accepted candidate. */
  lemma ExtractFound(b: seq<Byte>) returns (k: int)
    requires ExtractSequence(b).Some?
    ensures TagAt(b, k) && (forall j :: 0 <= j < k ==> !TagAt(b, j))
    ensures ExtractSequence(b) == Some(SequenceAt(b, k))
  {
    FirstTagFromFinds(b, 0);
    k := FirstTagFrom(b, 0).value;
  }

  /** A frame that yields a sequence number has also been recognised by `has_rtag`. */
  lemma ExtractImpliesHasRTag(b: seq<Byte>)
    ensures ExtractSequence(b).Some? ==> HasRTag(b)
  {
    if ExtractSequence(b).Some? {
      var k := ExtractFound(b);
      assert PairAt(b, k);
    }
  }

  /** A buffer without the pair `F1 C1` holds no marker either. */
  lemma NoPairNoMarker(b: seq<Byte>)
    ensures !HasRTag(b) ==> !ContainsMarker(b)
  {
    if ContainsMarker(b) {
      var i :| MarkerAt(b, i);
      assert PairAt(b, i);
    }
  }

  /**
   * `struct.pack('!HHHH', 0xF1C1, 0x0000, seq, next_protocol)`: the 8-byte R-TAG. Reading its
   * fields back gives the EtherType, a zero reserved field, the sequence number and the next
   * protocol.
   */
  function RTagBlock(sequence: U16, nextProtocol: U16): (r: seq<Byte>)
    ensures |r| == 8 && r[..4] == [0xF1, 0xC1, 0x00, 0x00]
    ensures ReadU16(r, 0) == RTAG_ETHERTYPE && ReadU16(r, 2) == 0x0000
    ensures ReadU16(r, 4) == sequence && ReadU16(r, 6) == nextProtocol
  {
    U16BE(RTAG_ETHERTYPE) + U16BE(0x0000) + U16BE(sequence) + U16BE(nextProtocol)
  }

  /** The block byte by byte: `F1 C1 00 00`, then the sequence number and the next protocol, high byte first. */
  lemma RTagBlockBytes(sequence: U16, nextProtocol: U16)
    ensures RTagBlock(sequence, nextProtocol)
      == [0xF1, 0xC1, 0x00, 0x00, sequence / 0x100, sequence % 0x100, nextProtocol / 0x100, nextProtocol % 0x100]
  {
  }

  /**
   * Offset independence: behind any prefix that holds no marker of its own, an R-TAG block is
   * found and its sequence number read back, whatever follows it.
   */
  lemma {:induction false} ExtractAfterPrefix(prefix: seq<Byte>, sequence: U16, nextProtocol: U16, rest: seq<Byte>)
    requires !ContainsMarker(prefix)
    ensures ExtractSequence(prefix + RTagBlock(sequence, nextProtocol) + rest) == Some(sequence)
  {
    var block := RTagBlock(sequence, nextProtocol);
    var b := prefix + block + rest;
    var n := |prefix|;
    assert b[n..n + 8] == block;
    assert TagAt(b, n);
    assert SequenceAt(b, n) == ReadU16(block, 4);
    forall j | 0 <= j < n
      ensures !TagAt(b, j)
    {
      if j + 4 <= n {
        assert !MarkerAt(prefix, j);
        assert forall k :: j <= k < j + 4 ==> b[k] == prefix[k];
      } else {
        // the candidate would need its 0xC1 or a reserved 0x00 at offset n, where 0xF1 stands
        assert b[n] == 0xF1;
      }
    }
    ExtractLeftmost(b, n);
  }

  /** The one-block frame: an R-TAG on its own decodes to its sequence number. */
  lemma RTagBlockRoundTrip(sequence: U16, nextProtocol: U16)
    ensures ExtractSequence(RTagBlock(sequence, nextProtocol)) == Some(sequence)
  {
    assert !ContainsMarker([]);
    ExtractAfterPrefix([], sequence, nextProtocol, []);
    assert [] + RTagBlock(sequence, nextProtocol) + [] == RTagBlock(sequence, nextProtocol);
  }

  /** A buffer without `F1 C1` is not an R-TAG frame: nothing is extracted. */
  lemma NoPairNotFound(b: seq<Byte>)
    ensures !HasRTag(b) ==> ExtractSequence(b) == None
  {
    ExtractImpliesHasRTag(b);
  }
}
