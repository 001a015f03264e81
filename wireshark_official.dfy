/** The frame builders of the Wireshark-dissector test: an R-TAG frame and a reference VLAN frame. */
module WiresharkOfficial {
  import opened Bytes
  import RTag
  import Text
  import Frame
  import Elimination

  const OFFICIAL_CAPTION := "Official R-TAG Test #"
  const REFERENCE_CAPTION := "Reference VLAN #"

  /** `payload_text = f"Official R-TAG Test #{seq_num}"`. */
  function PayloadText(seqNum: nat): string {
    OFFICIAL_CAPTION + Text.NatString(seqNum)
  }

  /**
   * `create_proper_rtag_frame(seq_num, next_protocol)`: raises unless both fields are 16-bit;
   * otherwise the R-TAG sits at offset 16 behind the broadcast address, the source MAC and the
   * tag `81 00 60 64`, the IPv4 total length is 28 plus the payload text, the IPv4
   * identification is the sequence number, and the UDP length is 8 plus the payload text.
   */
  function CreateProperRtagFrame(src: Frame.MacAddress, seqNum: int, nextProtocol: int): (r: Result<seq<Byte>>)
    ensures r.Ok? <==> IsU16(seqNum) && IsU16(nextProtocol)
    ensures r.Ok? ==>
      var f := r.value;
      var n := |PayloadText(seqNum)|;
      && |f| == Frame.HEADERS_LENGTH + n
      && f[..6] == Frame.BROADCAST && f[6..12] == src
      && ReadU16(f, 12) == Frame.TPID_8021Q && ReadU16(f, 14) == Frame.FIXED_TCI
      && f[16..24] == RTag.RTagBlock(seqNum, nextProtocol)
      && ReadU16(f, 26) == 28 + n && ReadU16(f, 28) == seqNum
      && ReadU16(f, 48) == 8 + n
      && f[52..] == Text.Encode(PayloadText(seqNum))
  {
    Frame.ProperRtagFrameFacts(OFFICIAL_CAPTION, src, seqNum, nextProtocol);
    Frame.ProperRtagFrame(OFFICIAL_CAPTION, src, seqNum, nextProtocol)
  }

  /** Round trip: `extract_sequence` reads back the sequence number the frame was built with. */
  lemma ProperFrameRoundTrip(src: Frame.MacAddress, seqNum: U16, nextProtocol: U16)
    requires !RTag.ContainsMarker(src)
    ensures CreateProperRtagFrame(src, seqNum, nextProtocol).Ok?
    ensures RTag.ExtractSequence(CreateProperRtagFrame(src, seqNum, nextProtocol).value) == Some(seqNum)
  {
    Frame.ProperRtagFrameRoundTrip(OFFICIAL_CAPTION, src, seqNum, nextProtocol);
  }

  /** The same round trip for a source MAC without the pair `F1 C1`. */
  lemma ProperFrameRoundTripNoPair(src: Frame.MacAddress, seqNum: U16, nextProtocol: U16)
    requires !RTag.HasRTag(src)
    ensures RTag.ExtractSequence(CreateProperRtagFrame(src, seqNum, nextProtocol).value) == Some(seqNum)
  {
    RTag.NoPairNoMarker(src);
    ProperFrameRoundTrip(src, seqNum, nextProtocol);
  }

  /**
   * `struct.pack('!HHH', 0xF1C1, 0x0000, seq_num)`, the hex shown for each sequence: the first
   * six bytes of the R-TAG, whatever its next protocol.
   */
  function RTagDisplayBytes(seqNum: U16): (r: seq<Byte>)
    ensures forall np: U16 :: r == RTag.RTagBlock(seqNum, np)[..6]
  {
    U16BE(RTag.RTAG_ETHERTYPE) + U16BE(0x0000) + U16BE(seqNum)
  }

  /** The displayed bytes are the bytes at offsets 16..21 of the frame sent. */
  lemma DisplayMatchesFrame(src: Frame.MacAddress, seqNum: U16, nextProtocol: U16)
    ensures CreateProperRtagFrame(src, seqNum, nextProtocol).value[16..22] == RTagDisplayBytes(seqNum)
  {
    var f := CreateProperRtagFrame(src, seqNum, nextProtocol).value;
    assert f[16..22] == f[16..24][..6];
  }

  /** `payload_text = f"Reference VLAN #{seq_num}"`. */
  function ReferenceText(seqNum: nat): string {
    REFERENCE_CAPTION + Text.NatString(seqNum)
  }

  /** The reference payload text is ASCII and at most 21 characters long. */
  lemma ReferenceTextAscii(seqNum: U16)
    ensures Text.IsAscii(ReferenceText(seqNum)) && |ReferenceText(seqNum)| <= 21
  {
    var text := ReferenceText(seqNum);
    Text.U16StringLength(seqNum);
    Text.NatStringIsAscii(seqNum);
    forall i | 0 <= i < |text| ensures text[i] as int < 0x80 {
      if i >= |REFERENCE_CAPTION| {
        assert text[i] == Text.NatString(seqNum)[i - |REFERENCE_CAPTION|];
      }
    }
  }

  /** The hand-written IPv4 header bytes of the reference frame, with its literal flag/TTL/protocol bytes. */
  function ReferenceIpHeader(totalLength: U16, seqNum: U16): seq<Byte> {
    [0x45, 0x00] + U16BE(totalLength) + U16BE(seqNum) + [0x40, 0x00, 0x40, 0x11, 0x00, 0x00]
      + Frame.SRC_IP + Frame.DST_IP
  }

  /**
   * `create_reference_vlan_frame(seq_num)`: the same Ethernet and 802.1Q header followed
   * directly by EtherType 0x0800, with no R-TAG. Raises unless the sequence number is 16-bit.
   */
  function CreateReferenceVlanFrame(src: Frame.MacAddress, seqNum: int): (r: Result<seq<Byte>>)
    ensures r.Ok? <==> IsU16(seqNum)
  {
    if !IsU16(seqNum) then StructError
    else
      var text := ReferenceText(seqNum);
      Text.U16StringLength(seqNum);
      Ok(Frame.EthernetVlanHeader(src, Frame.FIXED_TCI) + U16BE(Frame.ETHERTYPE_IPV4)
        + (ReferenceIpHeader(28 + |text|, seqNum) + Frame.UdpHeader(8 + |text|) + Text.Encode(text)))
  }

  /**
   * Layout of the reference frame: EtherType 0x0800 at offset 16, its literal IPv4 header equal
   * to the one the R-TAG builders pack, then the UDP header and the payload.
   */
  lemma ReferenceFrameLayout(src: Frame.MacAddress, seqNum: U16)
    ensures var f := CreateReferenceVlanFrame(src, seqNum).value;
      var n := |ReferenceText(seqNum)|;
      && |f| == 46 + n
      && f[..6] == Frame.BROADCAST && f[6..12] == src
      && ReadU16(f, 12) == Frame.TPID_8021Q && ReadU16(f, 14) == Frame.FIXED_TCI
      && ReadU16(f, 16) == Frame.ETHERTYPE_IPV4
      && f[18..38] == Frame.Ipv4Header(28 + n, seqNum)
      && f[38..46] == Frame.UdpHeader(8 + n)
      && f[46..] == Text.Encode(ReferenceText(seqNum))
  {
    var text := ReferenceText(seqNum);
    ReferenceTextAscii(seqNum);
    Text.EncodeAscii(text);
    ReferencePartsLayout(src, seqNum, |text|, Text.Encode(text));
  }

  /** The layout of the reference frame's parts, for any payload of n bytes. */
  lemma ReferencePartsLayout(src: Frame.MacAddress, seqNum: U16, n: nat, payload: seq<Byte>)
    requires 28 + n < 0x1_0000 && |payload| == n
    ensures var f := Frame.EthernetVlanHeader(src, Frame.FIXED_TCI) + U16BE(Frame.ETHERTYPE_IPV4)
        + (ReferenceIpHeader(28 + n, seqNum) + Frame.UdpHeader(8 + n) + payload);
      && |f| == 46 + n
      && f[..6] == Frame.BROADCAST && f[6..12] == src
      && ReadU16(f, 12) == Frame.TPID_8021Q && ReadU16(f, 14) == Frame.FIXED_TCI
      && ReadU16(f, 16) == Frame.ETHERTYPE_IPV4
      && f[18..38] == Frame.Ipv4Header(28 + n, seqNum)
      && f[38..46] == Frame.UdpHeader(8 + n)
      && f[46..] == payload
  {
    var head := Frame.EthernetVlanHeader(src, Frame.FIXED_TCI);
    var vlan := Frame.VlanTag(Frame.FIXED_TCI);
    var ip := ReferenceIpHeader(28 + n, seqNum);
    var f := head + U16BE(Frame.ETHERTYPE_IPV4) + (ip + Frame.UdpHeader(8 + n) + payload);
    PartsAt(head, U16BE(Frame.ETHERTYPE_IPV4), ip, Frame.UdpHeader(8 + n), payload);
    ReferenceIpHeaderPacked(28 + n, seqNum);
    assert head[..6] == Frame.BROADCAST && head[6..12] == src && head[12..16] == vlan;
    assert head[12] == vlan[0] && head[13] == vlan[1];
    assert head[14] == vlan[2] && head[15] == vlan[3];
    assert f[12] == head[12] && f[13] == head[13];
    assert f[14] == head[14] && f[15] == head[15];
  }

  /** The literal flag, TTL, protocol and checksum bytes are the ones `struct.pack` writes. */
  lemma ReferenceIpHeaderPacked(totalLength: U16, seqNum: U16)
    ensures ReferenceIpHeader(totalLength, seqNum) == Frame.Ipv4Header(totalLength, seqNum)
  {
    assert U16BE(0x4000) == [0x40, 0x00];
    assert U16BE(0) == [0x00, 0x00];
  }

  /** Where the five parts of a 16 + 2 + 20 + 8 byte header and its payload sit. */
  lemma PartsAt(head: seq<Byte>, etherType: seq<Byte>, ip: seq<Byte>, udp: seq<Byte>, payload: seq<Byte>)
    requires |head| == 16 && |etherType| == 2 && |ip| == 20 && |udp| == 8
    ensures var f := head + etherType + (ip + udp + payload);
      && |f| == 46 + |payload| && f[..16] == head && f[16..18] == etherType
      && f[18..38] == ip && f[38..46] == udp && f[46..] == payload
  {
  }

  /**
   * In A + w + B, with no 0xF1 in A or B and B not starting with 0xC1, the only place an
   * `F1 C1` pair can stand is the two-byte word w.
   */
  lemma PairOnlyInWord(a: seq<Byte>, w: seq<Byte>, b: seq<Byte>)
    requires |w| == 2 && 0xF1 !in a && 0xF1 !in b && |b| >= 1 && b[0] != 0xC1
    ensures forall i :: RTag.PairAt(a + w + b, i) ==> i == |a|
    ensures RTag.HasRTag(a + w + b) <==> w == [0xF1, 0xC1]
  {
    var f := a + w + b;
    forall i | 0 <= i && i != |a|
      ensures !RTag.PairAt(f, i)
    {
      if i < |a| {
        assert f[i] == a[i];
      } else if |a| + 1 < i < |f| {
        assert f[i] == b[i - |a| - 2];
      } else if i == |a| + 1 {
        assert f[i + 1] == b[0];
      }
    }
    if w == [0xF1, 0xC1] {
      assert RTag.PairAt(f, |a|);
    }
  }

  /**
   * With a source MAC that holds no 0xF1 byte, `has_rtag` accepts the reference frame exactly
   * when its IPv4 identification (the sequence number) is 0xF1C1, and `extract_sequence` never
   * finds a tag in it.
   */
  lemma ReferenceFrameTag(src: Frame.MacAddress, seqNum: U16)
    requires 0xF1 !in src
    ensures RTag.HasRTag(CreateReferenceVlanFrame(src, seqNum).value) <==> seqNum == 0xF1C1
    ensures RTag.ExtractSequence(CreateReferenceVlanFrame(src, seqNum).value) == None
  {
    var a, b := ReferenceFrameSplit(src, seqNum);
    PairOnlyInWord(a, U16BE(seqNum), b);
    NoTagAroundWord(a, U16BE(seqNum), b);
    assert U16BE(seqNum) == [0xF1, 0xC1] <==> seqNum == 0xF1C1;
  }

  /** When the pair can only be the word w and a nonzero byte follows w, no tag is extracted. */
  lemma NoTagAroundWord(a: seq<Byte>, w: seq<Byte>, b: seq<Byte>)
    requires |w| == 2 && |b| >= 1 && b[0] != 0x00
    requires forall i :: RTag.PairAt(a + w + b, i) ==> i == |a|
    ensures RTag.ExtractSequence(a + w + b) == None
  {
    var f := a + w + b;
    forall i | 0 <= i
      ensures !RTag.TagAt(f, i)
    {
      if i == |a| {
        assert f[i + 2] == b[0];
      }
    }
    RTag.ExtractNone(f);
  }

  /**
   * The reference frame cut around its IPv4 identification at offset 22: no 0xF1 byte before it,
   * none after it, and the flags byte 0x40 right after it.
   */
  lemma ReferenceFrameSplit(src: Frame.MacAddress, seqNum: U16) returns (a: seq<Byte>, b: seq<Byte>)
    requires 0xF1 !in src
    ensures CreateReferenceVlanFrame(src, seqNum).value == a + U16BE(seqNum) + b
    ensures |a| == 22 && 0xF1 !in a && 0xF1 !in b && |b| >= 1 && b[0] == 0x40
  {
    var text := ReferenceText(seqNum);
    ReferenceTextAscii(seqNum);
    a := ReferencePrefix(src, 28 + |text|);
    b := ReferenceSuffix(text);
    ReferencePrefixNoF1(src, 28 + |text|);
    ReferenceSuffixNoF1(text);
    ReferenceFrameCut(src, seqNum);
  }

  /** The 22 bytes before the IPv4 identification. */
  function ReferencePrefix(src: Frame.MacAddress, totalLength: U16): seq<Byte> {
    Frame.EthernetVlanHeader(src, Frame.FIXED_TCI) + U16BE(Frame.ETHERTYPE_IPV4) + [0x45, 0x00] + U16BE(totalLength)
  }

  /** The bytes after the IPv4 identification. */
  function ReferenceSuffix(text: string): seq<Byte>
    requires 8 + |text| < 0x1_0000
  {
    [0x40, 0x00, 0x40, 0x11, 0x00, 0x00] + Frame.SRC_IP + Frame.DST_IP + Frame.UdpHeader(8 + |text|) + Text.Encode(text)
  }

  lemma ReferenceFrameCut(src: Frame.MacAddress, seqNum: U16)
    ensures var text := ReferenceText(seqNum);
      && |text| <= 21
      && CreateReferenceVlanFrame(src, seqNum).value
         == ReferencePrefix(src, 28 + |text|) + U16BE(seqNum) + ReferenceSuffix(text)
  {
    Text.U16StringLength(seqNum);
  }

  lemma ReferencePrefixNoF1(src: Frame.MacAddress, totalLength: U16)
    requires 0xF1 !in src && totalLength < 0xF1
    ensures |ReferencePrefix(src, totalLength)| == 22 && 0xF1 !in ReferencePrefix(src, totalLength)
  {
    HeaderNoF1(src);
    assert U16BE(totalLength) == [0, totalLength];
    assert U16BE(Frame.ETHERTYPE_IPV4) == [8, 0];
  }

  lemma ReferenceSuffixNoF1(text: string)
    requires Text.IsAscii(text) && |text| <= 21
    ensures var b := ReferenceSuffix(text); |b| >= 1 && b[0] == 0x40 && 0xF1 !in b
  {
    NoF1InAscii(text);
    assert Frame.UdpHeader(8 + |text|) == [0x30, 0x39, 0xD4, 0x31, 0, 8 + |text|, 0, 0];
  }

  /** The fixed Ethernet and 802.1Q header holds no 0xF1 byte unless the source MAC does. */
  lemma HeaderNoF1(src: Frame.MacAddress)
    requires 0xF1 !in src
    ensures 0xF1 !in Frame.EthernetVlanHeader(src, Frame.FIXED_TCI)
  {
    assert Frame.VlanTag(Frame.FIXED_TCI) == [0x81, 0x00, 0x60, 0x64];
  }

  /** Encoded ASCII text holds no 0xF1 byte. */
  lemma NoF1InAscii(s: string)
    requires Text.IsAscii(s)
    ensures 0xF1 !in Text.Encode(s)
  {
    Text.EncodeAsciiBelow80(s);
    var e := Text.Encode(s);
    assert forall k :: 0 <= k < |e| ==> e[k] != 0xF1;
  }

  /** The three reference frames sent (sequence numbers 1 to 3) carry no R-TAG. */
  lemma ReferenceFramesSentUntagged(src: Frame.MacAddress)
    requires 0xF1 !in src
    ensures forall s :: 1 <= s <= 3 ==> !RTag.HasRTag(CreateReferenceVlanFrame(src, s).value)
  {
    forall s | 1 <= s <= 3
      ensures !RTag.HasRTag(CreateReferenceVlanFrame(src, s).value)
    {
      ReferenceFrameTag(src, s);
    }
  }

  /** Phase 2's builder, `create_proper_rtag_frame(seq_num)` with its default next protocol IPv4. */
  function OfficialFrame(src: Frame.MacAddress): nat -> seq<Byte> {
    s => match CreateProperRtagFrame(src, s, Frame.ETHERTYPE_IPV4) case Ok(f) => f case StructError => []
  }

  /**
   * Phase 2 seen by a fresh analyzer: sequences 1 to 5 (`i + 1` for i in `range(5)`), each frame
   * sent twice, give ten packets, five accepted and five eliminated, every count 2, perfect FRER
   * and an elimination rate of 50%.
   */
  lemma OfficialTestIsPerfect(src: Frame.MacAddress)
    requires !RTag.ContainsMarker(src)
    ensures var st := Elimination.Run(Elimination.Doubled(Elimination.Built(OfficialFrame(src), Elimination.Range(1, 6))));
      Elimination.EachSentTwice(st, 5) && forall s :: s in Elimination.Seen(st) <==> 1 <= s <= 5
  {
    forall s: nat | s < 0x1_0000
      ensures RTag.ExtractSequence(OfficialFrame(src)(s)) == Some(s)
    {
      ProperFrameRoundTrip(src, s, Frame.ETHERTYPE_IPV4);
    }
    Elimination.RangeDoubled(OfficialFrame(src), 1, 6);
  }
}
