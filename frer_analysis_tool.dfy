/**
 * The real-time FRER analyzer: an object whose counters, per-stream record and histogram are
 * updated in place by `analyze_packet`, the two byte scans it relies on, the statistics it
 * reports, and the frame builder its companion sender uses.
 */
module FrerAnalysisTool {
  import opened Bytes
  import RTag
  import Frame
  import Text
  import Elimination

  class FrerAnalyzer {
    var streamSequences: map<int, set<int>>
    var packetCount: nat
    var duplicateCount: nat
    var uniqueCount: nat
    var rtagPackets: nat
    var sequenceStats: map<int, nat>
    /** The packets analyzed so far, in order. */
    ghost var packets: seq<seq<Byte>>

    function State(): Elimination.Stats
      reads this
    {
      Elimination.Stats(streamSequences, packetCount, duplicateCount, uniqueCount, rtagPackets, sequenceStats)
    }

    /** The fields are what feeding `packets` to a fresh analyzer leaves behind. */
    ghost predicate Valid()
      reads this
    {
      State() == Elimination.Run(packets)
    }

    /** `__init__`: zero counters and empty maps. */
    constructor ()
      ensures Valid() && packets == []
    {
      streamSequences := map[];
      packetCount := 0;
      duplicateCount := 0;
      uniqueCount := 0;
      rtagPackets := 0;
      sequenceStats := map[];
      packets := [];
      new;
      assert State() == Elimination.Initial();
    }

    /** `has_rtag`: scan every offset but the last for the pair `F1 C1`. */
    method HasRTag(packet: seq<Byte>) returns (found: bool)
      ensures found == RTag.HasRTag(packet)
      ensures found ==> 2 <= |packet|
    {
      var i := 0;
      while i < |packet| - 1
        invariant 0 <= i && (i == 0 || i <= |packet| - 1)
        invariant forall j :: 0 <= j < i ==> !RTag.PairAt(packet, j)
      {
        if packet[i..i + 2] == [0xF1, 0xC1] {
          assert RTag.PairAt(packet, i);
          return true;
        }
        i := i + 1;
      }
      return false;
    }

    /**
     * `extract_sequence`: scan the offsets `range(len - 5)` for `F1 C1`, read the reserved field
     * and the sequence number behind it, and return the sequence number of the first candidate
     * whose reserved field is zero. The bounds check inside the scan always passes.
     */
    method ExtractSequence(packet: seq<Byte>) returns (sequence: Option<int>)
      ensures sequence == RTag.ExtractSequence(packet)
    {
      var i := 0;
      while i < |packet| - 5
        invariant 0 <= i && (i == 0 || i <= |packet| - 5)
        invariant forall j :: 0 <= j < i ==> !RTag.TagAt(packet, j)
      {
        if packet[i..i + 2] == [0xF1, 0xC1] {
          assert i + 6 <= |packet|;
          if i + 6 <= |packet| {
            var reserved := ReadU16(packet, i + 2);
            var value := ReadU16(packet, i + 4);
            if reserved == 0x0000 {
              RTag.ExtractLeftmost(packet, i);
              return Some(value);
            }
          }
        }
        i := i + 1;
      }
      RTag.ExtractNone(packet);
      return None;
    }

    /**
     * `analyze_packet`: count the packet; for an R-TAG packet count it as such, and when a
     * sequence number is extracted, count it in the histogram and classify it against the
     * record of stream 1.
     */
    method AnalyzePacket(packet: seq<Byte>) returns (verdict: Elimination.Verdict)
      requires Valid()
      modifies this
      ensures Valid() && packets == old(packets) + [packet]
      ensures (State(), verdict) == Elimination.Analyze(old(State()), packet)
    {
      ghost var before := State();
      ghost var extracted: Option<int> := None;
      packetCount := packetCount + 1;
      var tagged := HasRTag(packet);
      if tagged {
        rtagPackets := rtagPackets + 1;
        var sequence := ExtractSequence(packet);
        extracted := sequence;
        if sequence.Some? {
          verdict := Classify(sequence.value);
        } else {
          verdict := Elimination.NoSequence;
        }
      } else {
        verdict := Elimination.NoTag;
      }
      assert (State(), verdict) == Elimination.Step(before, tagged, extracted);
      Elimination.AnalyzeIsStep(before, packet, tagged, extracted);
      ghost var after := State();
      Elimination.RunStep(packets, packet);
      assert after == Elimination.Run(packets + [packet]);
      packets := packets + [packet];
    }

    /**
     * Lines 42-55: count the sequence in the histogram, then accept it as ORIGINAL and record it
     * on stream 1, or eliminate it as DUPLICATE when stream 1 has seen it.
     */
    method Classify(s: int) returns (verdict: Elimination.Verdict)
      modifies this
      ensures (State(), verdict) == Elimination.Classify(old(State()), s)
      ensures packets == old(packets)
    {
      sequenceStats := sequenceStats[s := (if s in sequenceStats then sequenceStats[s] else 0) + 1];
      var seen := if Elimination.STREAM_ID in streamSequences then streamSequences[Elimination.STREAM_ID] else {};
      if s in seen {
        // looking stream 1 up in the `defaultdict` creates its entry
        streamSequences := streamSequences[Elimination.STREAM_ID := seen];
        duplicateCount := duplicateCount + 1;
        verdict := Elimination.Duplicate(s);
      } else {
        streamSequences := streamSequences[Elimination.STREAM_ID := seen + {s}];
        uniqueCount := uniqueCount + 1;
        verdict := Elimination.Original(s);
      }
    }

    /** A valid analyzer keeps the invariant, and has counted every packet it was given. */
    lemma ValidInv()
      requires Valid()
      ensures Elimination.Inv(State()) && packetCount == |packets|
    {
      Elimination.RunInvariant(packets);
    }

    /** Lines 107-109: the elimination rate, only when an R-TAG packet has been seen. */
    method EliminationRate() returns (rate: Option<real>)
      ensures rate == Elimination.EliminationRate(State())
    {
      if rtagPackets > 0 {
        rate := Some(duplicateCount as real / rtagPackets as real * 100.0);
      } else {
        rate := None;
      }
    }

    /** Lines 156-162: walk the histogram, stop at the first count other than 2, and require a duplicate. */
    method PerfectFrer() returns (perfect: bool)
      ensures perfect == Elimination.IsPerfectFrer(State())
    {
      perfect := true;
      var rest := sequenceStats.Keys;
      while rest != {}
        invariant rest <= sequenceStats.Keys
        invariant forall s :: s in sequenceStats && s !in rest ==> sequenceStats[s] == 2
        decreases |rest|
      {
        NonEmptyHasMember(rest);
        var s :| s in rest;
        if sequenceStats[s] != 2 {
          perfect := false;
          break;
        }
        rest := rest - {s};
      }
      perfect := perfect && duplicateCount > 0;
    }
  }

  /** A non-empty set has a member to pick. */
  lemma NonEmptyHasMember(r: set<int>)
    requires r != {}
    ensures exists x :: x in r
  {
    if forall y :: y !in r {
      assert false;
    }
  }

  /** The caption of the sender's frames. */
  const ANALYSIS_CAPTION := "Analysis Test #"

  /** The nested `create_proper_rtag_frame`: the fixed-tag R-TAG frame with text `Analysis Test #<seq>`. */
  function CreateProperRtagFrame(src: Frame.MacAddress, seqNum: int, nextProtocol: int): (r: Result<seq<Byte>>)
    ensures r.Ok? <==> IsU16(seqNum) && IsU16(nextProtocol)
    ensures r.Ok? ==>
      var n := |ANALYSIS_CAPTION| + |Text.NatString(seqNum)|;
      && |r.value| == Frame.HEADERS_LENGTH + n
      && r.value[..6] == Frame.BROADCAST && r.value[6..12] == src
      && ReadU16(r.value, 12) == Frame.TPID_8021Q && ReadU16(r.value, 14) == Frame.FIXED_TCI
      && r.value[16..24] == RTag.RTagBlock(seqNum, nextProtocol)
      && ReadU16(r.value, 26) == 28 + n && ReadU16(r.value, 28) == seqNum
      && ReadU16(r.value, 48) == 8 + n
      && r.value[52..] == Text.Encode(ANALYSIS_CAPTION + Text.NatString(seqNum))
  {
    Frame.ProperRtagFrameFacts(ANALYSIS_CAPTION, src, seqNum, nextProtocol);
    Frame.ProperRtagFrame(ANALYSIS_CAPTION, src, seqNum, nextProtocol)
  }

  /** The sender's frames decode to their sequence numbers on the analyzer's side. */
  lemma SenderFrameRoundTrip(src: Frame.MacAddress, seqNum: U16, nextProtocol: U16)
    requires !RTag.ContainsMarker(src)
    ensures CreateProperRtagFrame(src, seqNum, nextProtocol).Ok?
    ensures RTag.ExtractSequence(CreateProperRtagFrame(src, seqNum, nextProtocol).value) == Some(seqNum)
  {
    Frame.ProperRtagFrameRoundTrip(ANALYSIS_CAPTION, src, seqNum, nextProtocol);
  }

  /** The sender's builder for next protocol IPv4; outside the 16-bit range it has no frame. */
  function SenderFrame(src: Frame.MacAddress): nat -> seq<Byte> {
    s => match CreateProperRtagFrame(src, s, Frame.ETHERTYPE_IPV4) case Ok(f) => f case StructError => []
  }

  /** Every frame the sender can build decodes to its own sequence number. */
  lemma SenderFrameDecodes(src: Frame.MacAddress)
    requires !RTag.ContainsMarker(src)
    ensures Elimination.DecodesEvery(SenderFrame(src))
  {
    forall s: nat | s < 0x1_0000
      ensures RTag.ExtractSequence(SenderFrame(src)(s)) == Some(s)
    {
      SenderFrameRoundTrip(src, s, Frame.ETHERTYPE_IPV4);
    }
  }

  /**
   * `send_test_sequence`: sequences 10, 11 and 12 (`i + 10` for i in `range(3)`), each frame
   * sent twice, seen by a fresh analyzer: three sequences accepted and three eliminated,
   * perfect FRER, and an elimination rate of 50%.
   */
  lemma TestSequenceIsPerfect(src: Frame.MacAddress)
    requires !RTag.ContainsMarker(src)
    ensures var st := Elimination.Run(Elimination.Doubled(Elimination.Built(SenderFrame(src), Elimination.Range(10, 13))));
      Elimination.EachSentTwice(st, 3) && Elimination.Seen(st) == {10, 11, 12}
  {
    var ss := Elimination.Range(10, 13);
    SenderFrameDecodes(src);
    Elimination.RangeDoubled(SenderFrame(src), 10, 13);
    SequencesTenToTwelve(Elimination.Seen(Elimination.Run(Elimination.Doubled(Elimination.Built(SenderFrame(src), ss)))));
  }

  lemma SequencesTenToTwelve(seen: set<int>)
    requires forall s :: s in seen <==> 10 <= s < 13
    ensures seen == {10, 11, 12}
  {
    assert forall s :: s in seen <==> s in {10, 11, 12};
  }
}
