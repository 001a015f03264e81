/**
 * The Ethernet frame all three builders assemble with `struct.pack`: broadcast destination,
 * source MAC, 802.1Q tag, R-TAG, a 20-byte IPv4 header, an 8-byte UDP header and the payload.
 */
module Frame {
  import opened Bytes
  import RTag
  import Text

  type MacAddress = m: seq<Byte> | |m| == 6 witness [0, 0, 0, 0, 0, 0]

  const BROADCAST: MacAddress := [0xFF, 0xFF, 0xFF, 0xFF, 0xFF, 0xFF]
  const TPID_8021Q: U16 := 0x8100
  const ETHERTYPE_IPV4: U16 := 0x0800
  /** 192.168.100.1 and 192.168.100.2, as `socket.inet_aton` packs them. */
  const SRC_IP: seq<Byte> := [0xC0, 0xA8, 0x64, 0x01]
  const DST_IP: seq<Byte> := [0xC0, 0xA8, 0x64, 0x02]
  const UDP_SRC_PORT: U16 := 12345
  const UDP_DST_PORT: U16 := 54321
  /** Destination, source, 802.1Q tag, R-TAG, IPv4 and UDP headers: 6 + 6 + 4 + 8 + 20 + 8. */
  const HEADERS_LENGTH := 52
  /** The tag the fixed builders use: priority 3, VLAN 100. */
  const FIXED_PRIORITY := 3
  const FIXED_VLAN := 100
  const FIXED_TCI: U16 := 0x6064

  /**
   * `(priority << 13) | vlan_id` when `struct.pack('!H', …)` accepts it, None when the pack
   * raises. With a negative operand Python's OR is negative, so the pack raises.
   */
  function Tci(priority: int, vlanId: int): (r: Option<U16>)
    ensures r.Some? ==> 0 <= priority && 0 <= vlanId
  {
    if priority < 0 || vlanId < 0 then None
    else
      var tci := Or(priority * 0x2000, vlanId);
      if tci < 0x1_0000 then Some(tci) else None
  }

  /**
   * For a priority 0..7 and a VLAN id 0..4095 the tag packs, and the priority and VLAN id are
   * recovered by `tci >> 13` and `tci & 0xFFF`.
   */
  lemma TciPacking(priority: int, vlanId: int)
    requires 0 <= priority < 8 && 0 <= vlanId < 0x1000
    ensures Tci(priority, vlanId) == Some(priority * 0x2000 + vlanId)
    ensures Tci(priority, vlanId).value / 0x2000 == priority
    ensures Tci(priority, vlanId).value % 0x1000 == vlanId
  {
    assert Pow2(13) == 0x2000;
    OrDisjoint(priority, 13, vlanId);
    var tci := priority * 0x2000 + vlanId;
    assert tci == (2 * priority) * 0x1000 + vlanId;
  }

  /** A priority of 8 or more sets a bit above bit 15, and `struct.pack('!H', …)` raises. */
  lemma TciPriorityOverflow(priority: int, vlanId: int)
    requires priority >= 8
    ensures Tci(priority, vlanId) == None
  {
    if vlanId >= 0 {
      OrAtLeast(priority * 0x2000, vlanId);
    }
  }

  /** The fixed tag `(3 << 13) | 100` is 0x6064. */
  lemma FixedTci()
    ensures Tci(FIXED_PRIORITY, FIXED_VLAN) == Some(FIXED_TCI)
  {
    TciPacking(FIXED_PRIORITY, FIXED_VLAN);
  }

  /** `struct.pack('!HH', 0x8100, tci)`. */
  function VlanTag(tci: U16): (r: seq<Byte>)
    ensures |r| == 4 && r[0] == 0x81 && ReadU16(r, 0) == TPID_8021Q && ReadU16(r, 2) == tci
  {
    U16BE(TPID_8021Q) + U16BE(tci)
  }

  /**
   * `struct.pack('!BBHHHBBH4s4s', 0x45, 0x00, total_length, id, 0x4000, 64, 17, 0, src, dst)`:
   * version 4 with a 5-word header, don't-fragment, TTL 64, protocol UDP, zero checksum.
   */
  function Ipv4Header(totalLength: U16, id: U16): (h: seq<Byte>)
    ensures |h| == 20 && h[0] == 0x45 && h[8] == 64 && h[9] == 17
    ensures ReadU16(h, 2) == totalLength && ReadU16(h, 4) == id && ReadU16(h, 6) == 0x4000
    ensures h[12..16] == SRC_IP && h[16..20] == DST_IP
  {
    [0x45, 0x00] + U16BE(totalLength) + U16BE(id) + U16BE(0x4000) + [64, 17] + U16BE(0) + SRC_IP + DST_IP
  }

  /** `struct.pack('!HHHH', 12345, 54321, length, 0)`. */
  function UdpHeader(length: U16): (h: seq<Byte>)
    ensures |h| == 8 && ReadU16(h, 0) == UDP_SRC_PORT && ReadU16(h, 2) == UDP_DST_PORT
    ensures ReadU16(h, 4) == length && ReadU16(h, 6) == 0
  {
    U16BE(UDP_SRC_PORT) + U16BE(UDP_DST_PORT) + U16BE(length) + U16BE(0)
  }

  /** The first 16 bytes: destination, source and 802.1Q tag. */
  function EthernetVlanHeader(src: MacAddress, tci: U16): seq<Byte> {
    BROADCAST + src + VlanTag(tci)
  }

  /**
   * `dst_mac + src_mac + vlan_tag + rtag_header + ip_header + udp_header + payload`. The IPv4
   * and UDP length fields count the payload text's characters (`len(payload_text)`), while the
   * payload itself is the encoded bytes.
   */
  function RTagFrame(src: MacAddress, tci: U16, sequence: U16, nextProtocol: U16, textLength: nat, payload: seq<Byte>): seq<Byte>
    requires 28 + textLength < 0x1_0000
  {
    EthernetVlanHeader(src, tci) + RTag.RTagBlock(sequence, nextProtocol)
      + (Ipv4Header(28 + textLength, sequence) + UdpHeader(8 + textLength) + payload)
  }

  /** Where every part of the frame sits, and the header fields read back at their offsets. */
  lemma RTagFrameLayout(src: MacAddress, tci: U16, sequence: U16, nextProtocol: U16, textLength: nat, payload: seq<Byte>)
    requires 28 + textLength < 0x1_0000
    ensures var f := RTagFrame(src, tci, sequence, nextProtocol, textLength, payload);
      && |f| == HEADERS_LENGTH + |payload|
      && f[..6] == BROADCAST && f[6..12] == src
      && ReadU16(f, 12) == TPID_8021Q && ReadU16(f, 14) == tci
      && f[16..24] == RTag.RTagBlock(sequence, nextProtocol)
      && f[24..44] == Ipv4Header(28 + textLength, sequence)
      && ReadU16(f, 26) == 28 + textLength && ReadU16(f, 28) == sequence
      && f[44..52] == UdpHeader(8 + textLength)
      && ReadU16(f, 48) == 8 + textLength
      && f[52..] == payload
  {
    var f := RTagFrame(src, tci, sequence, nextProtocol, textLength, payload);
    var head := EthernetVlanHeader(src, tci);
    var ip := Ipv4Header(28 + textLength, sequence);
    var udp := UdpHeader(8 + textLength);
    assert f[..16] == head;
    assert f[12..16] == VlanTag(tci);
    assert f[24..44] == ip;
    assert f[26..28] == ip[2..4] && f[28..30] == ip[4..6];
    assert f[44..52] == udp;
    assert f[48..50] == udp[4..6];
  }

  /** The 16-byte header holds no `F1 C1 00 00` unless the source MAC does. */
  lemma HeaderHasNoMarker(src: MacAddress, tci: U16)
    requires !RTag.ContainsMarker(src)
    ensures !RTag.ContainsMarker(EthernetVlanHeader(src, tci))
  {
    var h := EthernetVlanHeader(src, tci);
    forall j | 0 <= j
      ensures !RTag.MarkerAt(h, j)
    {
      if 6 <= j <= 8 {
        assert !RTag.MarkerAt(src, j - 6);
        assert forall k :: j <= k < j + 4 ==> h[k] == src[k - 6];
      } else if j < 6 {
        assert h[j] == 0xFF;
      } else if j <= 12 {
        // the bytes from offset 9 meet the tag's leading 0x81
        assert h[12] == 0x81;
      }
    }
  }

  /**
   * Round trip: for a source MAC that holds no `F1 C1 00 00`, `extract_sequence` reads back the
   * sequence number the frame was built with, and `has_rtag` holds.
   */
  lemma RTagFrameRoundTrip(src: MacAddress, tci: U16, sequence: U16, nextProtocol: U16, textLength: nat, payload: seq<Byte>)
    requires 28 + textLength < 0x1_0000
    requires !RTag.ContainsMarker(src)
    ensures RTag.ExtractSequence(RTagFrame(src, tci, sequence, nextProtocol, textLength, payload)) == Some(sequence)
    ensures RTag.HasRTag(RTagFrame(src, tci, sequence, nextProtocol, textLength, payload))
  {
    var f := RTagFrame(src, tci, sequence, nextProtocol, textLength, payload);
    HeaderHasNoMarker(src, tci);
    RTag.ExtractAfterPrefix(EthernetVlanHeader(src, tci), sequence, nextProtocol,
      Ipv4Header(28 + textLength, sequence) + UdpHeader(8 + textLength) + payload);
    RTag.ExtractImpliesHasRTag(f);
  }

  /**
   * `create_proper_rtag_frame(seq_num, next_protocol)` with the payload text `caption + str(seq_num)`.
   * The two copies of the builder differ only in that caption. The pack raises unless both fields
   * are 16-bit; the IPv4 total length must be 16-bit as well.
   */
  function ProperRtagFrame(caption: string, src: MacAddress, seqNum: int, nextProtocol: int): Result<seq<Byte>>
  {
    if !IsU16(seqNum) || !IsU16(nextProtocol) then StructError
    else
      var text := caption + Text.NatString(seqNum);
      if 28 + |text| >= 0x1_0000 then StructError
      else Ok(RTagFrame(src, FIXED_TCI, seqNum, nextProtocol, |text|, Text.Encode(text)))
  }

  /** Everything a short ASCII caption guarantees about the fixed-tag builder. */
  lemma ProperRtagFrameFacts(caption: string, src: MacAddress, seqNum: int, nextProtocol: int)
    requires Text.IsAscii(caption) && |caption| <= 1000
    ensures var r := ProperRtagFrame(caption, src, seqNum, nextProtocol);
      && (r.Ok? <==> IsU16(seqNum) && IsU16(nextProtocol))
      && (r.Ok? ==>
        var f := r.value;
        var n := |caption| + |Text.NatString(seqNum)|;
        && |f| == HEADERS_LENGTH + n
        && f[..6] == BROADCAST && f[6..12] == src
        && ReadU16(f, 12) == TPID_8021Q && ReadU16(f, 14) == FIXED_TCI
        && f[16..24] == RTag.RTagBlock(seqNum, nextProtocol)
        && ReadU16(f, 26) == 28 + n && ReadU16(f, 28) == seqNum
        && ReadU16(f, 48) == 8 + n
        && f[52..] == Text.Encode(caption + Text.NatString(seqNum)))
  {
    if IsU16(seqNum) && IsU16(nextProtocol) {
      var text := caption + Text.NatString(seqNum);
      Text.U16StringLength(seqNum);
      Text.NatStringIsAscii(seqNum);
      assert Text.IsAscii(text) by {
        forall i | 0 <= i < |text| ensures text[i] as int < 0x80 {
          if i >= |caption| {
            assert text[i] == Text.NatString(seqNum)[i - |caption|];
          }
        }
      }
      Text.EncodeAscii(text);
      RTagFrameLayout(src, FIXED_TCI, seqNum, nextProtocol, |text|, Text.Encode(text));
    }
  }

  /** With a source MAC free of `F1 C1 00 00`, the fixed-tag frame decodes to its sequence number. */
  lemma ProperRtagFrameRoundTrip(caption: string, src: MacAddress, seqNum: U16, nextProtocol: U16)
    requires |caption| <= 1000
    requires !RTag.ContainsMarker(src)
    ensures ProperRtagFrame(caption, src, seqNum, nextProtocol).Ok?
    ensures RTag.ExtractSequence(ProperRtagFrame(caption, src, seqNum, nextProtocol).value) == Some(seqNum)
  {
    var text := caption + Text.NatString(seqNum);
    Text.U16StringLength(seqNum);
    RTagFrameRoundTrip(src, FIXED_TCI, seqNum, nextProtocol, |text|, Text.Encode(text));
  }
}
