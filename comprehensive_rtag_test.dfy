/**
 * `ComprehensiveRTAGTester.create_rtag_frame`: the test suite's R-TAG frame, with an 802.1Q tag
 * packed from a priority and a VLAN id, and a payload text padded with 'X' or cut to the
 * requested size; and what the suite's sweeps send with it.
 */
module ComprehensiveRtagTest {
  import opened Bytes
  import RTag
  import Frame
  import Text
  import Elimination

  /** The builder's keyword defaults. */
  const DEFAULT_STREAM_HANDLE := 1
  const DEFAULT_INTERFACE := "enp2s0"
  const DEFAULT_VLAN_ID := 100
  const DEFAULT_PRIORITY := 3
  const DEFAULT_PAYLOAD_SIZE := 64
  /** The interface the bidirectional test sends from besides the default one. */
  const SECOND_INTERFACE := "enp11s0"

  /** `f"R-TAG Test S{stream_handle} Seq{seq_num} If{interface}"`. */
  function BasePayload(streamHandle: int, seqNum: nat, interface: string): string {
    "R-TAG Test S" + Text.IntString(streamHandle) + " Seq" + Text.NatString(seqNum) + " If" + interface
  }

  /** `"X" * n`. */
  function Padding(n: nat): (r: string)
    ensures |r| == n && forall i :: 0 <= i < n ==> r[i] == 'X'
  {
    if n == 0 then [] else Padding(n - 1) + "X"
  }

  /**
   * The payload of `payload_size` characters: the base text padded with 'X' when it is shorter,
   * otherwise `base_payload[:payload_size]`, which for a negative size drops that many
   * characters from the end.
   */
  function SizedPayload(base: string, size: int): (p: string)
    ensures size >= 0 ==> |p| == size
    ensures size < 0 ==> |p| == (if |base| + size > 0 then |base| + size else 0)
  {
    if |base| < size then base + Padding(size - |base|)
    else if size >= 0 then base[..size]
    else base[..if |base| + size > 0 then |base| + size else 0]
  }

  /** The sized payload is the base text as far as it reaches, then 'X'. */
  lemma SizedPayloadChars(base: string, size: int)
    ensures var p := SizedPayload(base, size);
      forall i :: 0 <= i < |p| ==> p[i] == (if i < |base| then base[i] else 'X')
  {
    if |base| < size {
      var pad := Padding(size - |base|);
      assert forall i :: |base| <= i < size ==> (base + pad)[i] == pad[i - |base|];
    }
  }

  /**
   * `create_rtag_frame(seq_num, stream_handle, interface, vlan_id, priority, payload_size)`, for
   * a given source MAC. `struct.pack` raises when the tag, the sequence number or the IPv4
   * total length `28 + len(payload)` is not 16-bit.
   */
  function CreateRtagFrame(src: Frame.MacAddress, seqNum: int, streamHandle: int, interface: string,
                           vlanId: int, priority: int, payloadSize: int): (r: Result<seq<Byte>>)
    ensures r.Ok? ==> IsU16(seqNum) && Frame.Tci(priority, vlanId).Some?
  {
    match Frame.Tci(priority, vlanId)
    case None => StructError
    case Some(tci) =>
      if !IsU16(seqNum) then StructError
      else
        var payload := SizedPayload(BasePayload(streamHandle, seqNum, interface), payloadSize);
        if 28 + |payload| >= 0x1_0000 then StructError
        else Ok(Frame.RTagFrame(src, tci, seqNum, Frame.ETHERTYPE_IPV4, |payload|, Text.Encode(payload)))
  }

  /** The payload text of a frame that was built. */
  function PayloadOf(seqNum: U16, streamHandle: int, interface: string, payloadSize: int): string {
    SizedPayload(BasePayload(streamHandle, seqNum, interface), payloadSize)
  }

  /**
   * For a non-negative payload size, the frame is built exactly when the tag packs, the
   * sequence number is 16-bit and the IPv4 total length `28 + payload_size` is.
   */
  lemma CreateRtagFrameSucceeds(src: Frame.MacAddress, seqNum: int, streamHandle: int, interface: string,
                                vlanId: int, priority: int, payloadSize: int)
    requires payloadSize >= 0
    ensures CreateRtagFrame(src, seqNum, streamHandle, interface, vlanId, priority, payloadSize).Ok?
      <==> Frame.Tci(priority, vlanId).Some? && IsU16(seqNum) && 28 + payloadSize < 0x1_0000
  {
  }

  /** A priority of 8 or more overflows the 16-bit TCI and the frame is not built. */
  lemma PriorityTooHigh(src: Frame.MacAddress, seqNum: int, streamHandle: int, interface: string,
                        vlanId: int, priority: int, payloadSize: int)
    requires priority >= 8
    ensures CreateRtagFrame(src, seqNum, streamHandle, interface, vlanId, priority, payloadSize) == StructError
  {
    Frame.TciPriorityOverflow(priority, vlanId);
  }

  /** A payload of 65508 characters or more makes the IPv4 total length overflow. */
  lemma PayloadTooLarge(src: Frame.MacAddress, seqNum: int, streamHandle: int, interface: string,
                        vlanId: int, priority: int, payloadSize: int)
    requires payloadSize >= 0x1_0000 - 28
    ensures CreateRtagFrame(src, seqNum, streamHandle, interface, vlanId, priority, payloadSize) == StructError
  {
  }

  /**
   * The header of a built frame, for any interface name: broadcast destination, the source
   * MAC, the 802.1Q tag `(priority << 13) | vlan_id`, the R-TAG bytes `F1 C1 00 00 hi lo 08 00`
   * at offset 16, and IPv4 and UDP lengths that count the payload's characters.
   */
  lemma CreateRtagFrameFields(src: Frame.MacAddress, seqNum: U16, streamHandle: int, interface: string,
                              vlanId: int, priority: int, payloadSize: int)
    requires CreateRtagFrame(src, seqNum, streamHandle, interface, vlanId, priority, payloadSize).Ok?
    ensures var f := CreateRtagFrame(src, seqNum, streamHandle, interface, vlanId, priority, payloadSize).value;
      var n := |PayloadOf(seqNum, streamHandle, interface, payloadSize)|;
      && 0 <= priority && 0 <= vlanId
      && |f| >= Frame.HEADERS_LENGTH + n
      && f[..6] == Frame.BROADCAST && f[6..12] == src
      && ReadU16(f, 12) == Frame.TPID_8021Q && ReadU16(f, 14) == Frame.Tci(priority, vlanId).value
      && f[16..24] == [0xF1, 0xC1, 0x00, 0x00, seqNum / 0x100, seqNum % 0x100, 0x08, 0x00]
      && ReadU16(f, 26) == 28 + n && ReadU16(f, 28) == seqNum && ReadU16(f, 48) == 8 + n
      && f[52..] == Text.Encode(PayloadOf(seqNum, streamHandle, interface, payloadSize))
  {
    var tci := Frame.Tci(priority, vlanId).value;
    var payload := PayloadOf(seqNum, streamHandle, interface, payloadSize);
    CreateRtagFrameIs(src, seqNum, streamHandle, interface, vlanId, priority, payloadSize);
    var f := Frame.RTagFrame(src, tci, seqNum, Frame.ETHERTYPE_IPV4, |payload|, Text.Encode(payload));
    Frame.RTagFrameLayout(src, tci, seqNum, Frame.ETHERTYPE_IPV4, |payload|, Text.Encode(payload));
    RTag.RTagBlockBytes(seqNum, Frame.ETHERTYPE_IPV4);
    assert f[16..24] == [0xF1, 0xC1, 0x00, 0x00, seqNum / 0x100, seqNum % 0x100, 0x08, 0x00];
  }

  /** Helper of `CreateRtagFrameFields`: a frame that was built is the R-TAG frame of the packed tag and the encoded payload. */
  lemma CreateRtagFrameIs(src: Frame.MacAddress, seqNum: U16, streamHandle: int, interface: string,
                          vlanId: int, priority: int, payloadSize: int)
    requires CreateRtagFrame(src, seqNum, streamHandle, interface, vlanId, priority, payloadSize).Ok?
    ensures var payload := PayloadOf(seqNum, streamHandle, interface, payloadSize);
      && Frame.Tci(priority, vlanId).Some? && 28 + |payload| < 0x1_0000
      && CreateRtagFrame(src, seqNum, streamHandle, interface, vlanId, priority, payloadSize).value
        == Frame.RTagFrame(src, Frame.Tci(priority, vlanId).value, seqNum, Frame.ETHERTYPE_IPV4, |payload|, Text.Encode(payload))
  {
  }

  /** `str(i)` is ASCII. */
  lemma IntStringIsAscii(i: int)
    ensures Text.IsAscii(Text.IntString(i))
  {
    if i < 0 {
      var s := Text.IntString(i);
      forall k | 0 <= k < |s| ensures s[k] as int < 0x80 {
        if k > 0 {
          assert s[k] == Text.NatString(-i)[k - 1];
        }
      }
    }
  }

  /** With an ASCII interface name the base payload text is ASCII. */
  lemma BasePayloadIsAscii(streamHandle: int, seqNum: nat, interface: string)
    requires Text.IsAscii(interface)
    ensures Text.IsAscii(BasePayload(streamHandle, seqNum, interface))
  {
    IntStringIsAscii(streamHandle);
    Text.NatStringIsAscii(seqNum);
    var a := "R-TAG Test S" + Text.IntString(streamHandle);
    var b := a + " Seq" + Text.NatString(seqNum);
    var c := b + " If" + interface;
    assert Text.IsAscii(a) by {
      forall k | 0 <= k < |a| ensures a[k] as int < 0x80 {
        if k >= 12 {
          assert a[k] == Text.IntString(streamHandle)[k - 12];
        }
      }
    }
    assert Text.IsAscii(b) by {
      forall k | 0 <= k < |b| ensures b[k] as int < 0x80 {
        if k < |a| {
          assert b[k] == a[k];
        } else if k >= |a| + 4 {
          assert b[k] == Text.NatString(seqNum)[k - |a| - 4];
        }
      }
    }
    forall k | 0 <= k < |c| ensures c[k] as int < 0x80 {
      if k < |b| {
        assert c[k] == b[k];
      } else if k >= |b| + 3 {
        assert c[k] == interface[k - |b| - 3];
      }
    }
  }

  /**
   * With an ASCII interface name and a non-negative size, the frame is `52 + payload_size`
   * bytes and its payload is the base text, then 'X' up to the size.
   */
  lemma CreateRtagFrameAsciiLayout(src: Frame.MacAddress, seqNum: U16, streamHandle: int, interface: string,
                                   vlanId: int, priority: int, payloadSize: int)
    requires Text.IsAscii(interface) && payloadSize >= 0
    requires CreateRtagFrame(src, seqNum, streamHandle, interface, vlanId, priority, payloadSize).Ok?
    ensures var f := CreateRtagFrame(src, seqNum, streamHandle, interface, vlanId, priority, payloadSize).value;
      var base := BasePayload(streamHandle, seqNum, interface);
      && |f| == Frame.HEADERS_LENGTH + payloadSize
      && ReadU16(f, 26) == 28 + payloadSize && ReadU16(f, 48) == 8 + payloadSize
      && forall i :: 0 <= i < payloadSize ==> f[52 + i] == (if i < |base| then base[i] else 'X') as int
  {
    var f := CreateRtagFrame(src, seqNum, streamHandle, interface, vlanId, priority, payloadSize).value;
    var base := BasePayload(streamHandle, seqNum, interface);
    var payload := PayloadOf(seqNum, streamHandle, interface, payloadSize);
    CreateRtagFrameFields(src, seqNum, streamHandle, interface, vlanId, priority, payloadSize);
    BasePayloadIsAscii(streamHandle, seqNum, interface);
    SizedPayloadChars(base, payloadSize);
    assert Text.IsAscii(payload) by {
      forall i | 0 <= i < |payload| ensures payload[i] as int < 0x80 {
        if i < |base| {
          assert payload[i] == base[i];
        }
      }
    }
    Text.EncodeAscii(payload);
    forall i | 0 <= i < payloadSize
      ensures f[52 + i] == (if i < |base| then base[i] else 'X') as int
    {
      assert f[52 + i] == f[52..][i];
    }
  }

  /**
   * Round trip: with a source MAC free of `F1 C1 00 00`, the analyzer finds the R-TAG in a built
   * frame and reads back its sequence number, whatever the payload.
   */
  lemma CreateRtagFrameRoundTrip(src: Frame.MacAddress, seqNum: U16, streamHandle: int, interface: string,
                                 vlanId: int, priority: int, payloadSize: int)
    requires !RTag.ContainsMarker(src)
    requires CreateRtagFrame(src, seqNum, streamHandle, interface, vlanId, priority, payloadSize).Ok?
    ensures var f := CreateRtagFrame(src, seqNum, streamHandle, interface, vlanId, priority, payloadSize).value;
      RTag.HasRTag(f) && RTag.ExtractSequence(f) == Some(seqNum)
  {
    var tci := Frame.Tci(priority, vlanId).value;
    var payload := PayloadOf(seqNum, streamHandle, interface, payloadSize);
    Frame.RTagFrameRoundTrip(src, tci, seqNum, Frame.ETHERTYPE_IPV4, |payload|, Text.Encode(payload));
  }

  /**
   * The stream handle reaches the frame only through the payload text: two streams' frames
   * for one sequence number share all 52 header bytes, so the analyzer, which reads only the
   * R-TAG, cannot tell the streams apart.
   */
  lemma StreamHandleOnlyInPayload(src: Frame.MacAddress, seqNum: U16, handle1: int, handle2: int, interface: string,
                                  vlanId: int, priority: int, payloadSize: int)
    requires payloadSize >= 0
    requires CreateRtagFrame(src, seqNum, handle1, interface, vlanId, priority, payloadSize).Ok?
    ensures CreateRtagFrame(src, seqNum, handle2, interface, vlanId, priority, payloadSize).Ok?
    ensures CreateRtagFrame(src, seqNum, handle1, interface, vlanId, priority, payloadSize).value[..52]
      == CreateRtagFrame(src, seqNum, handle2, interface, vlanId, priority, payloadSize).value[..52]
  {
    CreateRtagFrameSucceeds(src, seqNum, handle1, interface, vlanId, priority, payloadSize);
    CreateRtagFrameSucceeds(src, seqNum, handle2, interface, vlanId, priority, payloadSize);
    CreateRtagFrameHead(src, seqNum, handle1, interface, vlanId, priority, payloadSize);
    CreateRtagFrameHead(src, seqNum, handle2, interface, vlanId, priority, payloadSize);
  }

  /** The 52 header bytes of a built frame depend on the tag, the sequence number and the size only. */
  lemma CreateRtagFrameHead(src: Frame.MacAddress, seqNum: U16, streamHandle: int, interface: string,
                            vlanId: int, priority: int, payloadSize: int)
    requires payloadSize >= 0
    requires CreateRtagFrame(src, seqNum, streamHandle, interface, vlanId, priority, payloadSize).Ok?
    ensures Frame.Tci(priority, vlanId).Some? && 28 + payloadSize < 0x1_0000
    ensures CreateRtagFrame(src, seqNum, streamHandle, interface, vlanId, priority, payloadSize).value[..52]
      == Frame.EthernetVlanHeader(src, Frame.Tci(priority, vlanId).value) + RTag.RTagBlock(seqNum, Frame.ETHERTYPE_IPV4)
        + (Frame.Ipv4Header(28 + payloadSize, seqNum) + Frame.UdpHeader(8 + payloadSize))
  {
    var payload := PayloadOf(seqNum, streamHandle, interface, payloadSize);
    CreateRtagFrameIs(src, seqNum, streamHandle, interface, vlanId, priority, payloadSize);
    var tci := Frame.Tci(priority, vlanId).value;
    var head := Frame.EthernetVlanHeader(src, tci) + RTag.RTagBlock(seqNum, Frame.ETHERTYPE_IPV4)
      + (Frame.Ipv4Header(28 + payloadSize, seqNum) + Frame.UdpHeader(8 + payloadSize));
    HeadersPrefix(head, Text.Encode(payload));
  }

  lemma HeadersPrefix(head: seq<Byte>, payload: seq<Byte>)
    requires |head| == 52
    ensures (head + payload)[..52] == head
  {
  }

  /**
   * Lines 93-98, 117-121: a frame of stream 2 that follows a frame of stream 1 with the same
   * sequence number is eliminated as a DUPLICATE, since the record is kept for stream 1 only.
   */
  lemma OtherStreamIsDuplicate(st: Elimination.Stats, src: Frame.MacAddress, seqNum: U16, handle1: int, handle2: int)
    requires !RTag.ContainsMarker(src)
    ensures CreateRtagFrame(src, seqNum, handle1, DEFAULT_INTERFACE, DEFAULT_VLAN_ID, DEFAULT_PRIORITY, DEFAULT_PAYLOAD_SIZE).Ok?
    ensures CreateRtagFrame(src, seqNum, handle2, DEFAULT_INTERFACE, DEFAULT_VLAN_ID, DEFAULT_PRIORITY, DEFAULT_PAYLOAD_SIZE).Ok?
    ensures var f1 := CreateRtagFrame(src, seqNum, handle1, DEFAULT_INTERFACE, DEFAULT_VLAN_ID, DEFAULT_PRIORITY, DEFAULT_PAYLOAD_SIZE).value;
      var f2 := CreateRtagFrame(src, seqNum, handle2, DEFAULT_INTERFACE, DEFAULT_VLAN_ID, DEFAULT_PRIORITY, DEFAULT_PAYLOAD_SIZE).value;
      Elimination.Analyze(Elimination.Analyze(st, f1).0, f2).1 == Elimination.Duplicate(seqNum)
  {
    DefaultsBuild(src, seqNum, handle1, DEFAULT_INTERFACE, DEFAULT_PAYLOAD_SIZE);
    DefaultsBuild(src, seqNum, handle2, DEFAULT_INTERFACE, DEFAULT_PAYLOAD_SIZE);
    var f1 := CreateRtagFrame(src, seqNum, handle1, DEFAULT_INTERFACE, DEFAULT_VLAN_ID, DEFAULT_PRIORITY, DEFAULT_PAYLOAD_SIZE).value;
    var f2 := CreateRtagFrame(src, seqNum, handle2, DEFAULT_INTERFACE, DEFAULT_VLAN_ID, DEFAULT_PRIORITY, DEFAULT_PAYLOAD_SIZE).value;
    CreateRtagFrameRoundTrip(src, seqNum, handle1, DEFAULT_INTERFACE, DEFAULT_VLAN_ID, DEFAULT_PRIORITY, DEFAULT_PAYLOAD_SIZE);
    CreateRtagFrameRoundTrip(src, seqNum, handle2, DEFAULT_INTERFACE, DEFAULT_VLAN_ID, DEFAULT_PRIORITY, DEFAULT_PAYLOAD_SIZE);
    Elimination.AnalyzeVerdict(st, f1, seqNum);
    Elimination.AnalyzeVerdict(Elimination.Analyze(st, f1).0, f2, seqNum);
  }

  /** With the default tag (priority 3, VLAN 100) every 16-bit sequence builds, for any payload size the IPv4 length allows. */
  lemma DefaultsBuild(src: Frame.MacAddress, seqNum: U16, streamHandle: int, interface: string, payloadSize: int)
    requires 0 <= payloadSize < 0x1_0000 - 28
    ensures CreateRtagFrame(src, seqNum, streamHandle, interface, DEFAULT_VLAN_ID, DEFAULT_PRIORITY, payloadSize).Ok?
  {
    Frame.TciPacking(DEFAULT_PRIORITY, DEFAULT_VLAN_ID);
  }

  /** The lists the multi-stream, priority, payload-size and wraparound tests walk through. */
  /** `range(1, 11)`, the basic test's sequence numbers. */
  const BASIC_FIRST := 1
  const BASIC_END := 11
  const STREAM_HANDLES: seq<int> := [1, 2, 3]
  const PRIORITIES: seq<int> := [0, 3, 6, 7]
  const VLAN_IDS: seq<int> := [100, 200, 300, 400]
  const PAYLOAD_SIZES: seq<int> := [64, 128, 256, 512, 1024, 1500]
  const WRAPAROUND_SEQUENCES: seq<nat> := [65533, 65534, 65535, 0, 1, 2]

  /** The basic, multi-stream and wraparound tests send only 16-bit sequence numbers, so every frame builds. */
  lemma SequenceSweepsBuild(src: Frame.MacAddress)
    ensures forall s :: s in Elimination.Range(1, 11) ==>
      CreateRtagFrame(src, s, DEFAULT_STREAM_HANDLE, DEFAULT_INTERFACE, DEFAULT_VLAN_ID, DEFAULT_PRIORITY, DEFAULT_PAYLOAD_SIZE).Ok?
    ensures forall h, s :: h in STREAM_HANDLES && s in Elimination.Range(1, 6) ==>
      CreateRtagFrame(src, s, h, DEFAULT_INTERFACE, DEFAULT_VLAN_ID, DEFAULT_PRIORITY, DEFAULT_PAYLOAD_SIZE).Ok?
    ensures forall s :: s in WRAPAROUND_SEQUENCES ==>
      CreateRtagFrame(src, s, DEFAULT_STREAM_HANDLE, DEFAULT_INTERFACE, DEFAULT_VLAN_ID, DEFAULT_PRIORITY, DEFAULT_PAYLOAD_SIZE).Ok?
  {
    forall h: int, s: nat | s < 0x1_0000
      ensures CreateRtagFrame(src, s, h, DEFAULT_INTERFACE, DEFAULT_VLAN_ID, DEFAULT_PRIORITY, DEFAULT_PAYLOAD_SIZE).Ok?
    {
      DefaultsBuild(src, s, h, DEFAULT_INTERFACE, DEFAULT_PAYLOAD_SIZE);
    }
  }

  /** The bidirectional test's sequences 100..102 and 200..202 build on both interfaces. */
  lemma BidirectionalSweepBuilds(src1: Frame.MacAddress, src2: Frame.MacAddress)
    ensures forall s :: s in Elimination.Range(100, 103) ==>
      CreateRtagFrame(src1, s, DEFAULT_STREAM_HANDLE, DEFAULT_INTERFACE, DEFAULT_VLAN_ID, DEFAULT_PRIORITY, DEFAULT_PAYLOAD_SIZE).Ok?
    ensures forall s :: s in Elimination.Range(200, 203) ==>
      CreateRtagFrame(src2, s, DEFAULT_STREAM_HANDLE, SECOND_INTERFACE, DEFAULT_VLAN_ID, DEFAULT_PRIORITY, DEFAULT_PAYLOAD_SIZE).Ok?
  {
    forall s: nat | s < 0x1_0000
      ensures CreateRtagFrame(src1, s, DEFAULT_STREAM_HANDLE, DEFAULT_INTERFACE, DEFAULT_VLAN_ID, DEFAULT_PRIORITY, DEFAULT_PAYLOAD_SIZE).Ok?
      ensures CreateRtagFrame(src2, s, DEFAULT_STREAM_HANDLE, SECOND_INTERFACE, DEFAULT_VLAN_ID, DEFAULT_PRIORITY, DEFAULT_PAYLOAD_SIZE).Ok?
    {
      DefaultsBuild(src1, s, DEFAULT_STREAM_HANDLE, DEFAULT_INTERFACE, DEFAULT_PAYLOAD_SIZE);
      DefaultsBuild(src2, s, DEFAULT_STREAM_HANDLE, SECOND_INTERFACE, DEFAULT_PAYLOAD_SIZE);
    }
  }

  /**
   * The priority test: the i-th frame (sequence i + 1) carries priority PRIORITIES[i] and VLAN
   * VLAN_IDS[i] in its tag, recovered by `tci >> 13` and `tci & 0xFFF`.
   */
  lemma PrioritySweepTags(src: Frame.MacAddress)
    ensures forall i :: 0 <= i < 4 ==>
      var r := CreateRtagFrame(src, i + 1, DEFAULT_STREAM_HANDLE, DEFAULT_INTERFACE, VLAN_IDS[i], PRIORITIES[i], DEFAULT_PAYLOAD_SIZE);
      && r.Ok?
      && ReadU16(r.value, 14) / 0x2000 == PRIORITIES[i]
      && ReadU16(r.value, 14) % 0x1000 == VLAN_IDS[i]
  {
    forall i | 0 <= i < 4
      ensures var r := CreateRtagFrame(src, i + 1, DEFAULT_STREAM_HANDLE, DEFAULT_INTERFACE, VLAN_IDS[i], PRIORITIES[i], DEFAULT_PAYLOAD_SIZE);
        && r.Ok?
        && ReadU16(r.value, 14) / 0x2000 == PRIORITIES[i]
        && ReadU16(r.value, 14) % 0x1000 == VLAN_IDS[i]
    {
      Frame.TciPacking(PRIORITIES[i], VLAN_IDS[i]);
      CreateRtagFrameFields(src, i + 1, DEFAULT_STREAM_HANDLE, DEFAULT_INTERFACE, VLAN_IDS[i], PRIORITIES[i], DEFAULT_PAYLOAD_SIZE);
    }
  }

  /** The payload-size test: the i-th frame (sequence i + 1) is `52 + PAYLOAD_SIZES[i]` bytes long. */
  lemma PayloadSweepLengths(src: Frame.MacAddress)
    ensures forall i :: 0 <= i < 6 ==>
      var r := CreateRtagFrame(src, i + 1, DEFAULT_STREAM_HANDLE, DEFAULT_INTERFACE, DEFAULT_VLAN_ID, DEFAULT_PRIORITY, PAYLOAD_SIZES[i]);
      r.Ok? && |r.value| == Frame.HEADERS_LENGTH + PAYLOAD_SIZES[i]
  {
    assert forall i :: 0 <= i < 6 ==> 0 <= PAYLOAD_SIZES[i] <= 1500;
    forall i | 0 <= i < 6
      ensures var r := CreateRtagFrame(src, i + 1, DEFAULT_STREAM_HANDLE, DEFAULT_INTERFACE, DEFAULT_VLAN_ID, DEFAULT_PRIORITY, PAYLOAD_SIZES[i]);
        r.Ok? && |r.value| == Frame.HEADERS_LENGTH + PAYLOAD_SIZES[i]
    {
      DefaultFrameLength(src, i + 1, PAYLOAD_SIZES[i]);
    }
  }

  /** With the default tag and interface a frame is `52 + payload_size` bytes long. */
  lemma DefaultFrameLength(src: Frame.MacAddress, seqNum: U16, payloadSize: int)
    requires 0 <= payloadSize < 0x1_0000 - 28
    ensures var r := CreateRtagFrame(src, seqNum, DEFAULT_STREAM_HANDLE, DEFAULT_INTERFACE, DEFAULT_VLAN_ID, DEFAULT_PRIORITY, payloadSize);
      r.Ok? && |r.value| == Frame.HEADERS_LENGTH + payloadSize
  {
    InterfacesAreAscii();
    DefaultsBuild(src, seqNum, DEFAULT_STREAM_HANDLE, DEFAULT_INTERFACE, payloadSize);
    CreateRtagFrameAsciiLayout(src, seqNum, DEFAULT_STREAM_HANDLE, DEFAULT_INTERFACE, DEFAULT_VLAN_ID, DEFAULT_PRIORITY, payloadSize);
  }

  lemma InterfacesAreAscii()
    ensures Text.IsAscii(DEFAULT_INTERFACE) && Text.IsAscii(SECOND_INTERFACE)
  {
  }

  /** The frames a test sends for each sequence number, with the other arguments fixed; none outside 16 bits. */
  function TestFrame(src: Frame.MacAddress, streamHandle: int, interface: string): nat -> seq<Byte> {
    s => TestFrameFor(src, streamHandle, interface, s)
  }

  function TestFrameFor(src: Frame.MacAddress, streamHandle: int, interface: string, s: nat): seq<Byte> {
    match CreateRtagFrame(src, s, streamHandle, interface, DEFAULT_VLAN_ID, DEFAULT_PRIORITY, DEFAULT_PAYLOAD_SIZE)
    case Ok(f) => f
    case StructError => []
  }

  /** Every frame of such a test decodes to its own sequence number. */
  lemma TestFrameDecodes(src: Frame.MacAddress, streamHandle: int, interface: string)
    requires !RTag.ContainsMarker(src)
    ensures Elimination.DecodesEvery(TestFrame(src, streamHandle, interface))
  {
    forall s: nat | s < 0x1_0000
      ensures RTag.ExtractSequence(TestFrame(src, streamHandle, interface)(s)) == Some(s)
    {
      DefaultsBuild(src, s, streamHandle, interface, DEFAULT_PAYLOAD_SIZE);
      CreateRtagFrameRoundTrip(src, s, streamHandle, interface, DEFAULT_VLAN_ID, DEFAULT_PRIORITY, DEFAULT_PAYLOAD_SIZE);
    }
  }

  /**
   * The basic test, every frame sent twice, seen by a fresh analyzer: 20 packets, ten
   * sequences accepted and ten eliminated, each counted twice, perfect FRER and a rate of 50%.
   */
  lemma BasicTestIsPerfect(src: Frame.MacAddress)
    requires !RTag.ContainsMarker(src)
    ensures var st := Elimination.Run(Elimination.Doubled(Elimination.Built(TestFrame(src, DEFAULT_STREAM_HANDLE, DEFAULT_INTERFACE), Elimination.Range(BASIC_FIRST, BASIC_END))));
      Elimination.EachSentTwice(st, 10) && forall s :: s in Elimination.Seen(st) <==> 1 <= s <= 10
  {
    var build := TestFrame(src, DEFAULT_STREAM_HANDLE, DEFAULT_INTERFACE);
    TestFrameDecodes(src, DEFAULT_STREAM_HANDLE, DEFAULT_INTERFACE);
    Elimination.RangeDoubled(build, BASIC_FIRST, BASIC_END);
  }

  const MULTI_STREAM_FIRST := 1
  const MULTI_STREAM_END := 6

  /** Lines 117-129: for each stream handle in turn, sequences 1 to 5, each frame sent twice. */
  function MultiStreamFrames(src: Frame.MacAddress): seq<seq<Byte>> {
    var r := Elimination.Range(MULTI_STREAM_FIRST, MULTI_STREAM_END);
    Elimination.Doubled(Elimination.Built(TestFrame(src, STREAM_HANDLES[0], DEFAULT_INTERFACE), r))
      + Elimination.Doubled(Elimination.Built(TestFrame(src, STREAM_HANDLES[1], DEFAULT_INTERFACE), r))
      + Elimination.Doubled(Elimination.Built(TestFrame(src, STREAM_HANDLES[2], DEFAULT_INTERFACE), r))
  }

  /**
   * The multi-stream test seen by a fresh analyzer, which files every sequence under stream 1:
   * 30 packets, only the five sequences of stream 1's first copies are accepted and the other
   * 25 packets are eliminated, every sequence is counted 6 times rather than the twice the
   * suite's summary expects, FRER is not perfect and the elimination rate is 83 1/3 %.
   */
  lemma MultiStreamTestRun(src: Frame.MacAddress)
    requires !RTag.ContainsMarker(src)
    ensures var st := Elimination.Run(MultiStreamFrames(src));
      && st.packetCount == 30 && st.rtagPackets == 30
      && st.uniqueCount == 5 && st.duplicateCount == 25
      && (forall s :: s in Elimination.Seen(st) <==> 1 <= s <= 5)
      && (forall s :: 1 <= s <= 5 ==> Elimination.Count(st, s) == 6)
      && !Elimination.IsPerfectFrer(st)
      && Elimination.EliminationRate(st) == Some(250.0 / 3.0)
  {
    TestFrameDecodes(src, STREAM_HANDLES[0], DEFAULT_INTERFACE);
    TestFrameDecodes(src, STREAM_HANDLES[1], DEFAULT_INTERFACE);
    TestFrameDecodes(src, STREAM_HANDLES[2], DEFAULT_INTERFACE);
    Elimination.SharedSequences(TestFrame(src, STREAM_HANDLES[0], DEFAULT_INTERFACE),
      TestFrame(src, STREAM_HANDLES[1], DEFAULT_INTERFACE), TestFrame(src, STREAM_HANDLES[2], DEFAULT_INTERFACE),
      MULTI_STREAM_FIRST, MULTI_STREAM_END);
  }

  /**
   * The wraparound test, every frame sent twice: 65535 and 0 are different sequences to the
   * analyzer, so all six are accepted once and eliminated once, and FRER is perfect.
   */
  lemma WraparoundTestIsPerfect(src: Frame.MacAddress)
    requires !RTag.ContainsMarker(src)
    ensures var st := Elimination.Run(Elimination.Doubled(Elimination.Built(TestFrame(src, DEFAULT_STREAM_HANDLE, DEFAULT_INTERFACE), WRAPAROUND_SEQUENCES)));
      Elimination.EachSentTwice(st, 6) && forall s :: s in Elimination.Seen(st) <==> s in WRAPAROUND_SEQUENCES
  {
    var build := TestFrame(src, DEFAULT_STREAM_HANDLE, DEFAULT_INTERFACE);
    TestFrameDecodes(src, DEFAULT_STREAM_HANDLE, DEFAULT_INTERFACE);
    WraparoundSequencesDistinct(build);
    Elimination.BuiltDoubled(build, WRAPAROUND_SEQUENCES);
  }

  /** The wraparound list repeats no number, 65535 and 0 included. */
  lemma WraparoundSequencesDistinct(build: nat -> seq<Byte>)
    requires Elimination.DecodesEvery(build)
    ensures Elimination.DecodesDistinct(build, WRAPAROUND_SEQUENCES)
  {
    var w := WRAPAROUND_SEQUENCES;
    assert forall i :: 0 <= i < |w| ==> w[i] < 0x1_0000;
  }
}
