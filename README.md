# FRER R-TAG analyzer and frame builders

This project models the test tools of a FRER (Frame Replication and Elimination for
Reliability, IEEE 802.1CB) setup. The tools send, capture and analyse Ethernet frames that carry
the IEEE 802.1CB redundancy tag (R-TAG). The R-TAG is laid out as follows (clause 7.8 of
IEEE 802.1CB-2017):

- EtherType 0xF1C1;
- two reserved bytes;
- a 16-bit sequence number;
- a 16-bit next-protocol field.

All fields are big-endian.

- **The analyzer** (`FRERAnalyzer`, module `FrerAnalysisTool`) is a class whose fields are
  updated in place by `analyze_packet`:
  - the per-stream record of seen sequence numbers (`stream_sequences`);
  - the packet, R-TAG, unique and duplicate counters;
  - the sequence histogram (`sequence_stats`).

  Its two byte scans, `has_rtag` and `extract_sequence`, are loops proved against the search
  functions of module `RTag`. The elimination rate and the perfect-FRER verdict are methods proved
  against functions of module `Elimination`.

  The class keeps the packets fed so far as a ghost sequence. Its invariant `Valid()` says that
  the fields equal what the pure fold `Elimination.Run` computes from those packets. Every
  property of the counters is proved once about that fold:
  - the counters agree with the record and the histogram;
  - the first copy wins;
  - the histogram counts the packets;
  - the rate lies between 0 and 100;
  - perfect FRER means as many duplicates as originals.
- **The frame builders** are pure byte serialisers:
  - modules `Frame` and `WiresharkOfficial` model `create_proper_rtag_frame` and
    `create_reference_vlan_frame`;
  - module `FrerAnalysisTool` models the nested copy in the analyzer's sender;
  - module `ComprehensiveRtagTest` models `create_rtag_frame`.

  Each builder is a `Result`: `struct.pack` raising is the `StructError` case, so no builder has
  a precondition on its numbers. For every builder the model proves the exact layout, offsets
  and length fields. Beyond that:
  - **Round trip.** The three R-TAG builders round-trip with `extract_sequence` for any source
    MAC without the bytes `F1 C1 00 00`. The reference builder `create_reference_vlan_frame`
    has no R-TAG and so no round trip. For a source MAC without any 0xF1 byte, it is proved that
    nothing is extracted from its frame, and that `has_rtag` holds exactly when the sequence
    number itself is 0xF1C1. Its three frames sent (sequences 1 to 3) carry no R-TAG.
  - **Runs that send every frame twice, with distinct sequences.** A fresh analyzer reports
    perfect FRER at 50% after four runs:
    - the basic test;
    - the wraparound test, where 65535 and 0 are distinct sequences;
    - the analyzer's own test sequence;
    - phase 2 of the official sender (sequences 1 to 5).
  - **The multi-stream test.** It sends sequences 1 to 5 once per stream handle 1, 2 and 3. The
    analyzer files every sequence under stream 1, so it accepts only stream 1's first copies: 5
    of the 30 packets are accepted and 25 eliminated. Every sequence is counted 6 times, not the
    twice the suite's summary expects (line 302 of `comprehensive_rtag_test.py`). That run is not
    perfect FRER, and its rate is 83 1/3 %.

  For the priority, payload-size and bidirectional tests, the model proves only that their frames
  build, with the tag, length or interface each test varies. No analyzer run over them, or over
  the official sender's phase 1, is stated.

Modules `Bytes` and `Text` hold the byte arithmetic (big-endian fields and Python's `|`). They also
hold `str(n)` and the UTF-8 `str.encode()` that the payload texts use.

Three behaviours of `extract_sequence` and of the builders are narrower than the R-TAG layout
above might suggest. The model follows the code each time:
- **Bytes needed behind a candidate.** The R-TAG is 8 bytes long. The scan `range(len - 5)` and
  the check `i + 6 <= len` (lines 82-85 of `frer_analysis_tool.py`) need only the 6 bytes that
  the comment at line 84 lists: EtherType, reserved field and sequence number. A frame that ends
  right after the sequence number still decodes.
- **Non-zero reserved field.** A candidate whose reserved field is not zero is not decoded. It is
  skipped, and the scan goes on to the next `F1 C1` (line 88).
- **Out-of-range sequence numbers.** No builder reduces a sequence number modulo 65536. Each hands
  it to `struct.pack('!H', ...)`, which raises, so the builder fails with `StructError`.

## Model

| member | source | states |
|---|---|---|
| Bytes.U16BE | frer_project/frer_wireshark_official.py:48 | `struct.pack('!H', x)` is two bytes that read back as x |
| Bytes.ReadU16Packs | frer_project/frer_analysis_tool.py:86-87 | packing the big-endian value read at i gives back the two bytes at i |
| Bytes.Or | frer_project/comprehensive_rtag_test.py:47 | Python's bitwise or on non-negative integers, bit by bit; `Bytes.OrDisjoint` proves it is addition on disjoint bit ranges and `Bytes.OrAtLeast` that it is at least its first operand |
| Bytes.OrDisjoint | frer_project/comprehensive_rtag_test.py:47 | OR-ing a value below 2^k into a multiple of 2^k is addition |
| Bytes.OrAtLeast | frer_project/comprehensive_rtag_test.py:47 | Python's OR of a and b is at least a |
| Text.NatString | frer_project/frer_wireshark_official.py:64 | `str(n)` is one or more decimal digits without a leading zero |
| Text.NatStringRoundTrip | frer_project/frer_wireshark_official.py:64 | the decimal value of `str(n)` is n |
| Text.U16StringLength | frer_project/frer_wireshark_official.py:64 | a 16-bit number prints in 1 to 5 digits |
| Text.IntString | frer_project/comprehensive_rtag_test.py:59 | `str(i)` starts with '-' exactly when i is negative |
| Text.Encode | frer_project/frer_wireshark_official.py:89 | `str.encode()` yields at least one byte per character |
| Text.EncodeAscii | frer_project/frer_wireshark_official.py:89 | on ASCII text the encoding is one byte per character, the character's code |
| RTag.HasRTag | frer_project/frer_analysis_tool.py:64-75 | `has_rtag`: some offset holds the pair `F1 C1`; `FrerAnalysisTool.FrerAnalyzer.HasRTag` is the loop proved equal to it, and `RTag.ExtractImpliesHasRTag` and `RTag.NoPairNoMarker` relate it to extraction |
| RTag.FirstTagFromFinds | frer_project/frer_analysis_tool.py:82-90 | the scan returns the leftmost offset holding `F1 C1 00 00` plus two bytes, or None when there is none |
| RTag.ExtractSequence | frer_project/frer_analysis_tool.py:82-89 | an extracted sequence number lies in 0..65535 |
| RTag.ExtractNone | frer_project/frer_analysis_tool.py:82-90 | nothing is extracted if and only if no offset holds `F1 C1 00 00` followed by two more bytes |
| RTag.ExtractLeftmost | frer_project/frer_analysis_tool.py:82-90 | the result is `b[k+4]*256 + b[k+5]` for the smallest such offset k; candidates with a non-zero reserved field are skipped |
| RTag.ExtractFound | frer_project/frer_analysis_tool.py:82-90 | an extracted value comes from a candidate with no candidate before it |
| RTag.ExtractImpliesHasRTag | frer_project/frer_analysis_tool.py:37-41 | a frame that yields a sequence number is recognised by `has_rtag`, so it was counted as an R-TAG packet |
| RTag.NoPairNoMarker | frer_project/frer_analysis_tool.py:70-73 | a buffer without `F1 C1` holds no `F1 C1 00 00` |
| RTag.NoPairNotFound | frer_project/frer_analysis_tool.py:37-41 | a buffer without `F1 C1` yields no sequence number |
| RTag.RTagBlock | frer_project/frer_wireshark_official.py:57-61 | the R-TAG is 8 bytes; its fields read back as 0xF1C1, 0, the sequence number and the next protocol |
| RTag.RTagBlockBytes | frer_project/frer_wireshark_official.py:52-61 | the R-TAG bytes are `F1 C1 00 00`, then the sequence number and the next protocol, high byte first |
| RTag.ExtractAfterPrefix | frer_project/frer_analysis_tool.py:82-90 | behind any prefix without `F1 C1 00 00`, an R-TAG is found and its sequence number read back, whatever follows it |
| RTag.RTagBlockRoundTrip | frer_project/frer_wireshark_official.py:57-61 | an R-TAG on its own decodes to its sequence number |
| Frame.Tci | frer_project/comprehensive_rtag_test.py:47-48 | the tag packs only when priority and VLAN id are non-negative and `(priority << 13)` OR-ed with `vlan_id` is 16-bit |
| Frame.TciPacking | frer_project/comprehensive_rtag_test.py:47-48 | for priority 0..7 and VLAN id 0..4095 the tag packs, `tci >> 13` is the priority and `tci & 0xFFF` the VLAN id |
| Frame.TciPriorityOverflow | frer_project/comprehensive_rtag_test.py:47-48 | a priority of 8 or more makes the pack fail |
| Frame.FixedTci | frer_project/frer_wireshark_official.py:47 | `3 << 13` OR-ed with 100 is 0x6064 |
| Frame.VlanTag | frer_project/frer_wireshark_official.py:48 | the 802.1Q tag is 4 bytes: TPID 0x8100, then the TCI |
| Frame.Ipv4Header | frer_project/frer_wireshark_official.py:67-78 | 20 bytes: 0x45, the total length, the identification, 0x4000, TTL 64, protocol 17, the two addresses |
| Frame.UdpHeader | frer_project/frer_wireshark_official.py:80-85 | 8 bytes: ports 12345 and 54321, the length, a zero checksum |
| Frame.RTagFrameLayout | frer_project/frer_wireshark_official.py:88-89 | broadcast, source MAC and tag at 0..15, the R-TAG at 16, the IPv4 header at 24, UDP at 44, the payload from 52; length 52 plus the payload |
| Frame.HeaderHasNoMarker | frer_project/frer_wireshark_official.py:39-48 | the 16-byte Ethernet and 802.1Q header holds no `F1 C1 00 00` unless the source MAC does |
| Frame.RTagFrameRoundTrip | frer_project/frer_wireshark_official.py:88-89 | with such a source MAC, `extract_sequence` reads back the frame's sequence number and `has_rtag` holds |
| Frame.ProperRtagFrame | frer_project/frer_wireshark_official.py:35-91 | the body shared by both `create_proper_rtag_frame` copies: StructError unless both fields are 16-bit and the IPv4 length fits, otherwise the fixed-tag R-TAG frame of the caption and sequence; `Frame.ProperRtagFrameFacts` states its layout and `Frame.ProperRtagFrameRoundTrip` its round trip |
| Frame.ProperRtagFrameFacts | frer_project/frer_wireshark_official.py:35-91 | the fixed-tag builder succeeds if and only if sequence number and next protocol are 16-bit, and then has the layout and the length fields `28 + n`, `8 + n` |
| Frame.ProperRtagFrameRoundTrip | frer_project/frer_wireshark_official.py:35-91 | the fixed-tag frame decodes to its sequence number |
| Elimination.Initial | frer_project/frer_analysis_tool.py:23-29 | the state `__init__` leaves: empty record and histogram, all counters 0; `Elimination.InitialInv` shows it satisfies the invariant |
| Elimination.InitialInv | frer_project/frer_analysis_tool.py:23-29 | a fresh analyzer satisfies the invariant and has seen nothing |
| Elimination.Classify | frer_project/frer_analysis_tool.py:42-55 | one extracted sequence: histogram count plus one, then DUPLICATE with `duplicate_count + 1` if stream 1 has seen it, else ORIGINAL with the sequence recorded and `unique_count + 1`; `Elimination.ClassifyCounts`, `Elimination.ClassifyRecords` and `Elimination.ClassifyKeepsInv` carry its properties |
| Elimination.ClassifyCounts | frer_project/frer_analysis_tool.py:42 | classification adds one to the histogram count of s and leaves the other counts alone |
| Elimination.ClassifyRecords | frer_project/frer_analysis_tool.py:47-55 | s is recorded on stream 1; `unique_count` rises exactly when s is new, `duplicate_count` exactly when it is not |
| Elimination.ClassifyKeepsInv | frer_project/frer_analysis_tool.py:42-55 | classification keeps the invariant and counts s once more |
| Elimination.Analyze | frer_project/frer_analysis_tool.py:32-55 | `analyze_packet` on the fields as a value: count the packet, then for an `F1 C1` frame count an R-TAG packet and classify an extracted sequence; `Elimination.AnalyzeCounts`, `Elimination.AnalyzeVerdict` and `Elimination.AnalyzeKeepsInv` carry its properties |
| Elimination.AnalyzeIsStep | frer_project/frer_analysis_tool.py:37-41 | skipping `extract_sequence` on an untagged packet does not change the outcome |
| Elimination.StepKeepsInv | frer_project/frer_analysis_tool.py:32-55 | one call keeps the invariant |
| Elimination.AnalyzeCounts | frer_project/frer_analysis_tool.py:32-41 | `packet_count` rises by 1, `rtag_packets` by 1 exactly for a frame with `F1 C1`; the verdict names the branch taken; an unclassified packet leaves record and histogram alone |
| Elimination.AnalyzeKeepsInv | frer_project/frer_analysis_tool.py:32-55 | `analyze_packet` keeps the invariant |
| Elimination.CountersKeepInv | frer_project/frer_analysis_tool.py:34-38 | counting packets that are not classified keeps the invariant |
| Elimination.AnalyzeVerdict | frer_project/frer_analysis_tool.py:47-55 | first copy wins: DUPLICATE exactly when stream 1 has seen s, and a third copy is a DUPLICATE too |
| Elimination.RunInvariant | frer_project/frer_analysis_tool.py:32-55 | after any run, `unique_count` is the size of `stream_sequences[1]`, the histogram sums to `unique_count + duplicate_count`, which is at most `rtag_packets`, which is at most `packet_count`, the number of packets |
| Elimination.HistogramCountsPackets | frer_project/frer_analysis_tool.py:42-53 | after any run, `sequence_stats[s]` is the number of packets carrying s, and s is recorded if and only if one did |
| Elimination.VerdictCounts | frer_project/frer_analysis_tool.py:42-55 | one ORIGINAL per recorded sequence, and `sequence_stats[s] - 1` DUPLICATE verdicts on s |
| Elimination.FirstCopyWins | frer_project/frer_analysis_tool.py:47-55 | packet i is ORIGINAL for s if and only if it carries s and no earlier packet does, DUPLICATE if and only if an earlier one does |
| Elimination.EliminationRate | frer_project/frer_analysis_tool.py:107-109 | the rate is computed if and only if `rtag_packets > 0` |
| Elimination.EliminationRateBounds | frer_project/frer_analysis_tool.py:107-109 | the rate lies in [0, 100] |
| Elimination.IsPerfectFrer | frer_project/frer_analysis_tool.py:156-162 | the perfect-FRER verdict: every histogram count is 2 and some duplicate was eliminated; `Elimination.PerfectFrerBalanced` and `Elimination.PerfectFrerHalfRate` carry its consequences |
| Elimination.PerfectFrerBalanced | frer_project/frer_analysis_tool.py:156-162 | perfect FRER implies `duplicate_count == unique_count > 0` |
| Elimination.PerfectFrerHalfRate | frer_project/frer_analysis_tool.py:156-162 | perfect FRER with every R-TAG packet classified is a rate of exactly 50% |
| Elimination.Doubled | frer_project/comprehensive_rtag_test.py:93-98 | sending each frame twice doubles the length |
| Elimination.DoubledTwice | frer_project/comprehensive_rtag_test.py:93-98 | each frame appears twice in a row, in order |
| Elimination.Range | frer_project/comprehensive_rtag_test.py:88 | `range(lo, hi)` is lo, lo+1, …, hi-1 |
| Elimination.RangeDecodesDistinct | frer_project/comprehensive_rtag_test.py:88 | a builder that decodes every 16-bit number sends `range(lo, hi)` as frames with distinct sequences, exactly lo..hi-1 |
| Elimination.SentTwice | frer_project/comprehensive_rtag_test.py:93-98 | the same frame twice with a new sequence: ORIGINAL then DUPLICATE, histogram count 2 |
| Elimination.BalancedStep | frer_project/comprehensive_rtag_test.py:93-98 | a new frame sent twice adds one accepted and one eliminated copy with count 2 |
| Elimination.DoubledRun | frer_project/comprehensive_rtag_test.py:88-98 | frames with distinct sequences, each sent twice: each is accepted once and eliminated once, every count is 2, stream 1 has seen exactly the sequences sent |
| Elimination.DoubledRunPerfect | frer_project/frer_analysis_tool.py:156-162 | such a run is perfect FRER at a rate of 50% |
| Elimination.BuiltDoubled | frer_project/comprehensive_rtag_test.py:302 | n distinct sequences sent twice give 2n packets, n accepted, n eliminated, every count 2, perfect FRER, 50%, and exactly those sequences seen |
| Elimination.RangeDoubled | frer_project/comprehensive_rtag_test.py:88-98 | the same for the sequences `range(lo, hi)` |
| Elimination.DoubledAt | frer_project/comprehensive_rtag_test.py:93-98 | frame k of the doubled list is frame k / 2 of the list |
| Elimination.CarryingAppend | frer_project/frer_analysis_tool.py:42-43 | the packets carrying s in a concatenation are those of each part |
| Elimination.CarryingDoubled | frer_project/comprehensive_rtag_test.py:93-98 | sending each frame twice doubles the number of packets carrying every sequence |
| Elimination.CarryingBuilt | frer_project/comprehensive_rtag_test.py:88-89 | frames built for distinct numbers carry each number of the list once and no other |
| Elimination.RangeDoubledCarrying | frer_project/comprehensive_rtag_test.py:120-129 | a doubled `range(lo, hi)` carries each of its numbers exactly twice and nothing else |
| Elimination.RangeDoubledWithin | frer_project/comprehensive_rtag_test.py:120-129 | every frame of a doubled `range(lo, hi)` carries a number in lo..hi-1 |
| Elimination.CarriesWithinAppend | frer_project/comprehensive_rtag_test.py:117-129 | the streams' frame lists together still carry numbers in lo..hi-1 |
| Elimination.SeenStep | frer_project/frer_analysis_tool.py:42-55 | a packet with an already recorded sequence adds one packet, one R-TAG packet, one duplicate and one to that count; the record is unchanged |
| Elimination.AllSeenAfter | frer_project/frer_analysis_tool.py:42-55 | packets whose sequences are all recorded are all eliminated: no new original, one duplicate each, the record unchanged |
| Elimination.AllSeenCounts | frer_project/frer_analysis_tool.py:42-43 | each such packet adds one to its sequence's histogram count |
| Elimination.RunCountedNotTwice | frer_project/frer_analysis_tool.py:156-162 | a recorded sequence whose count is not 2 rules out perfect FRER |
| Elimination.FiveOfSix | frer_project/frer_analysis_tool.py:107-109 | 5n eliminated out of 6n is a rate of 83 1/3 % |
| Elimination.RepeatedAfterBalanced | frer_project/comprehensive_rtag_test.py:117-129 | after a doubled run of lo..hi-1, two more lists each carrying every number twice: 6n packets, n accepted, 5n eliminated, every count 6, not perfect FRER, 83 1/3 % |
| Elimination.SharedSequences | frer_project/comprehensive_rtag_test.py:117-129 | three decoding senders each sending `range(lo, hi)` twice per number: n accepted, 5n eliminated, every count 6, not perfect FRER, 83 1/3 % |
| Elimination.NoWraparound | frer_project/comprehensive_rtag_test.py:207-217 | after 65535, a 0 is accepted as ORIGINAL: there is no wraparound logic |
| FrerAnalysisTool.FrerAnalyzer.constructor | frer_project/frer_analysis_tool.py:23-30 | zero counters and empty maps, the state of an empty run |
| FrerAnalysisTool.FrerAnalyzer.HasRTag | frer_project/frer_analysis_tool.py:64-75 | the loop answers true if and only if some offset holds `F1 C1`; false for fewer than 2 bytes |
| FrerAnalysisTool.FrerAnalyzer.ExtractSequence | frer_project/frer_analysis_tool.py:77-92 | the loop returns what `RTag.ExtractSequence` specifies |
| FrerAnalysisTool.FrerAnalyzer.AnalyzePacket | frer_project/frer_analysis_tool.py:32-62 | the fields become `Elimination.Analyze` of the old fields and the packet, and the invariant is kept |
| FrerAnalysisTool.FrerAnalyzer.Classify | frer_project/frer_analysis_tool.py:42-55 | the fields and the verdict are `Elimination.Classify` of the old fields |
| FrerAnalysisTool.FrerAnalyzer.ValidInv | frer_project/frer_analysis_tool.py:32-55 | a valid analyzer satisfies the counter invariant and has counted every packet |
| FrerAnalysisTool.FrerAnalyzer.EliminationRate | frer_project/frer_analysis_tool.py:107-109 | returns the rate exactly when an R-TAG packet was seen |
| FrerAnalysisTool.FrerAnalyzer.PerfectFrer | frer_project/frer_analysis_tool.py:156-162 | the early-exit loop answers "every count is 2 and a duplicate was eliminated" |
| FrerAnalysisTool.CreateProperRtagFrame | frer_project/frer_analysis_tool.py:177-203 | succeeds if and only if both fields are 16-bit, with the fixed layout, the length fields of `Analysis Test #<seq>` and that text encoded from 52 |
| FrerAnalysisTool.SenderFrameRoundTrip | frer_project/frer_analysis_tool.py:177-203 | the sender's frame decodes to its sequence number |
| FrerAnalysisTool.SenderFrameDecodes | frer_project/frer_analysis_tool.py:190-201 | every 16-bit sequence the sender can build decodes to itself |
| FrerAnalysisTool.TestSequenceIsPerfect | frer_project/frer_analysis_tool.py:209-222 | sequences 10, 11 and 12 sent twice: 6 packets, 3 accepted, 3 eliminated, perfect FRER, 50%, sequences {10, 11, 12} seen |
| WiresharkOfficial.CreateProperRtagFrame | frer_project/frer_wireshark_official.py:35-91 | succeeds if and only if both fields are 16-bit; R-TAG at 16, length `52 + n`, IPv4 length `28 + n`, id = sequence, UDP length `8 + n`, payload the encoded text |
| WiresharkOfficial.ProperFrameRoundTrip | frer_project/frer_wireshark_official.py:35-91 | for a source MAC without `F1 C1 00 00` the frame decodes to its sequence number |
| WiresharkOfficial.ProperFrameRoundTripNoPair | frer_project/frer_wireshark_official.py:35-91 | the same for a source MAC without the pair `F1 C1` |
| WiresharkOfficial.RTagDisplayBytes | frer_project/frer_wireshark_official.py:172 | the displayed 6 bytes are the first 6 bytes of the R-TAG, whatever its next protocol |
| WiresharkOfficial.DisplayMatchesFrame | frer_project/frer_wireshark_official.py:169-173 | the displayed bytes are bytes 16..21 of the frame sent |
| WiresharkOfficial.ReferenceTextAscii | frer_project/frer_wireshark_official.py:111 | the reference text is ASCII and at most 21 characters |
| WiresharkOfficial.CreateReferenceVlanFrame | frer_project/frer_wireshark_official.py:93-125 | succeeds if and only if the sequence number is 16-bit |
| WiresharkOfficial.ReferenceFrameLayout | frer_project/frer_wireshark_official.py:93-125 | broadcast, source MAC, TPID 0x8100 at 12, TCI 0x6064 at 14, EtherType 0x0800 at 16, the packed IPv4 and UDP headers, the encoded reference text from 46; length 46 plus the text |
| WiresharkOfficial.ReferenceIpHeaderPacked | frer_project/frer_wireshark_official.py:113-120 | the hand-written IPv4 bytes equal the header the R-TAG builders pack |
| WiresharkOfficial.ReferenceFrameTag | frer_project/frer_wireshark_official.py:93-125 | with no 0xF1 in the source MAC, `has_rtag` holds if and only if the sequence is 0xF1C1, and nothing is ever extracted |
| WiresharkOfficial.ReferenceFramesSentUntagged | frer_project/frer_wireshark_official.py:157-158 | the reference frames 1..3 carry no R-TAG |
| WiresharkOfficial.OfficialTestIsPerfect | frer_project/frer_wireshark_official.py:165-186 | phase 2 seen by a fresh analyzer: sequences 1..5 sent twice give 10 packets, 5 accepted, 5 eliminated, every count 2, perfect FRER, 50%, exactly 1..5 seen |
| ComprehensiveRtagTest.Padding | frer_project/comprehensive_rtag_test.py:61 | `"X" * n` is n characters 'X' |
| ComprehensiveRtagTest.SizedPayload | frer_project/comprehensive_rtag_test.py:60-63 | the payload has `payload_size` characters; a negative size drops that many characters from the end |
| ComprehensiveRtagTest.SizedPayloadChars | frer_project/comprehensive_rtag_test.py:60-63 | the payload is the base text as far as it reaches, then 'X' |
| ComprehensiveRtagTest.CreateRtagFrame | frer_project/comprehensive_rtag_test.py:29-76 | a frame is built only for a 16-bit sequence number and a tag that packs |
| ComprehensiveRtagTest.CreateRtagFrameSucceeds | frer_project/comprehensive_rtag_test.py:47-70 | for a non-negative size, the frame is built if and only if the tag packs, the sequence number is 16-bit and `28 + payload_size` is |
| ComprehensiveRtagTest.PriorityTooHigh | frer_project/comprehensive_rtag_test.py:47-48 | priority 8 or more: the pack raises |
| ComprehensiveRtagTest.PayloadTooLarge | frer_project/comprehensive_rtag_test.py:66-67 | a payload of 65508 characters or more: the IPv4 length pack raises |
| ComprehensiveRtagTest.CreateRtagFrameFields | frer_project/comprehensive_rtag_test.py:44-74 | broadcast, source MAC, the packed tag, `F1 C1 00 00 hi lo 08 00` at 16, IPv4 length `28 + n`, id = sequence, UDP length `8 + n`, payload from 52 |
| ComprehensiveRtagTest.CreateRtagFrameHead | frer_project/comprehensive_rtag_test.py:44-74 | the 52 header bytes depend only on the tag, the sequence number and the size |
| ComprehensiveRtagTest.IntStringIsAscii | frer_project/comprehensive_rtag_test.py:59 | `str(stream_handle)` is ASCII |
| ComprehensiveRtagTest.BasePayloadIsAscii | frer_project/comprehensive_rtag_test.py:59 | with an ASCII interface name the base text is ASCII |
| ComprehensiveRtagTest.CreateRtagFrameAsciiLayout | frer_project/comprehensive_rtag_test.py:59-74 | with an ASCII interface name, the frame is `52 + payload_size` bytes, the length fields count `payload_size`, and the payload bytes are the base text, then 'X' |
| ComprehensiveRtagTest.CreateRtagFrameRoundTrip | frer_project/comprehensive_rtag_test.py:29-76 | for a source MAC without `F1 C1 00 00`, `has_rtag` holds and `extract_sequence` reads back the sequence number |
| ComprehensiveRtagTest.StreamHandleOnlyInPayload | frer_project/comprehensive_rtag_test.py:59 | two streams' frames for one sequence share all 52 header bytes: the stream handle reaches only the payload text |
| ComprehensiveRtagTest.OtherStreamIsDuplicate | frer_project/comprehensive_rtag_test.py:117-121 | stream 2's frame after stream 1's with the same sequence is eliminated as DUPLICATE |
| ComprehensiveRtagTest.DefaultsBuild | frer_project/comprehensive_rtag_test.py:29-30 | with the default tag, every 16-bit sequence number builds |
| ComprehensiveRtagTest.DefaultFrameLength | frer_project/comprehensive_rtag_test.py:29-76 | with the default tag and interface the frame is `52 + payload_size` bytes |
| ComprehensiveRtagTest.SequenceSweepsBuild | frer_project/comprehensive_rtag_test.py:88-210 | the basic (1..10), multi-stream (1..5 for streams 1..3) and wraparound (65533..65535, 0..2) frames all build |
| ComprehensiveRtagTest.BidirectionalSweepBuilds | frer_project/comprehensive_rtag_test.py:236-255 | the sequences 100..102 on enp2s0 and 200..202 on enp11s0 build |
| ComprehensiveRtagTest.PrioritySweepTags | frer_project/comprehensive_rtag_test.py:146-152 | the four priority frames build and carry priority `[0,3,6,7][i]` and VLAN `[100,200,300,400][i]` |
| ComprehensiveRtagTest.PayloadSweepLengths | frer_project/comprehensive_rtag_test.py:177-181 | the six payload-size frames build and are `52 + size` bytes |
| ComprehensiveRtagTest.InterfacesAreAscii | frer_project/comprehensive_rtag_test.py:254-255 | both interface names are ASCII |
| ComprehensiveRtagTest.TestFrameDecodes | frer_project/comprehensive_rtag_test.py:88-89 | every default frame decodes to its own sequence number |
| ComprehensiveRtagTest.BasicTestIsPerfect | frer_project/comprehensive_rtag_test.py:88-102 | the basic test seen by a fresh analyzer: 20 packets, 10 accepted, 10 eliminated, every count 2, perfect FRER, 50% |
| ComprehensiveRtagTest.MultiStreamTestRun | frer_project/comprehensive_rtag_test.py:117-129 | the multi-stream test seen by a fresh analyzer: 30 packets, sequences 1..5 accepted once, 25 eliminated, every count 6 (against the summary's "exactly 2 times" at line 302), not perfect FRER, a rate of 83 1/3 % |
| ComprehensiveRtagTest.WraparoundTestIsPerfect | frer_project/comprehensive_rtag_test.py:207-221 | the wraparound test: all six sequences accepted once and eliminated once, 65535 and 0 distinct, perfect FRER |
| ComprehensiveRtagTest.WraparoundSequencesDistinct | frer_project/comprehensive_rtag_test.py:207 | the wraparound list repeats no number |

## Left out

- Raw-socket sending, `time.sleep` pacing and scapy's `sniff` capture are I/O. The senders'
  loops appear only as the lists of frames they send (`Elimination.Doubled`,
  `Elimination.Built`).
- The two-thread bidirectional sender (`comprehensive_rtag_test.py:254-262`) is concurrency. Only
  the frames each thread builds are modelled.
- The scapy-to-bytes conversion and the blanket `try/except` in `has_rtag` and
  `extract_sequence` are left out. A packet is a byte sequence, and on bytes those handlers never
  fire.
- The `get_if_hwaddr` lookup is left out; the source MAC is a 6-byte parameter. The fallback
  literal `68050cabd96e7` has 13 hex digits, so `bytes.fromhex` would raise; that path is not
  modelled.
- `socket.inet_aton` is left out. The two addresses are the constant bytes of 192.168.100.1 and
  192.168.100.2.
- `print_statistics` and all console output are left out. That includes the statistics print
  every ten R-TAG packets, the emoji reports, the display-filter hints and
  `check_wireshark_version`. What they print is modelled as values: the rate, the verdict and the
  histogram.
- The `start_time` field and the runtime are left out because they depend on the clock.
- Elimination.EliminationRate: the rate is the exact real `duplicate_count / rtag_packets * 100`.
  Floating-point rounding and the `:.1f` formatting are not modelled.
- Only stream id 1 is modelled, because the analyzer only ever uses stream id 1. The map keyed by
  stream id is kept, and no stream is inferred from a frame.
- The suite's hint that the stream handle shows in the frame bytes as `01:00`, `02:00` and
  `03:00` is console text and is not modelled. `ComprehensiveRtagTest.StreamHandleOnlyInPayload`
  shows instead that the handle reaches the frame only as ASCII digits in the payload text.
- `ComprehensiveRTAGTester.test_results` and `sequence_counter` are left out because they are
  never updated.
- ComprehensiveRtagTest.CreateRtagFrameAsciiLayout: the byte-level payload layout is stated only
  for an ASCII interface name and a non-negative size. For other names the UTF-8 encoding may
  make the payload longer than the length fields say. `CreateRtagFrameFields` covers every case
  at the character level.
- `tsn_toolkit.c` is not part of this model. It contains the gPTP slave with hardware timestamps,
  the netlink CBS configurator and a placeholder benchmark.
