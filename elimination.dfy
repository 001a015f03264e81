/**
 * The duplicate-elimination state of the FRER analyzer, as values: what one call of
 * `analyze_packet` does to the counters, the per-stream record of seen sequence numbers and the
 * sequence histogram, and what a whole run of calls leaves behind.
 */
module Elimination {
  import opened Bytes
  import RTag

  /** Every sequence number is filed under stream 1; no stream is ever inferred from the frame. */
  const STREAM_ID := 1

  /** The analyzer's fields; the two maps play the `defaultdict(set)` and `defaultdict(int)`. */
  datatype Stats = Stats(
    streamSequences: map<int, set<int>>,
    packetCount: nat,
    duplicateCount: nat,
    uniqueCount: nat,
    rtagPackets: nat,
    sequenceStats: map<int, nat>)

  /** What one call decides about its packet: no R-TAG, an R-TAG without an accepted sequence, ORIGINAL or DUPLICATE. */
  datatype Verdict = NoTag | NoSequence | Original(sequence: int) | Duplicate(sequence: int)

  /** The sequence numbers seen so far on stream 1; a missing key reads as the empty set. */
  function Seen(st: Stats): set<int> {
    if STREAM_ID in st.streamSequences then st.streamSequences[STREAM_ID] else {}
  }

  /** The histogram count of s; a missing key reads as 0. */
  function Count(st: Stats, s: int): nat {
    if s in st.sequenceStats then st.sequenceStats[s] else 0
  }

  function Get(h: map<int, nat>, k: int): nat {
    if k in h then h[k] else 0
  }

  /** The sum of the histogram counts of the keys lo..hi-1. */
  function SumRange(h: map<int, nat>, lo: int, hi: int): nat
    decreases hi - lo
  {
    if lo >= hi then 0 else Get(h, lo) + SumRange(h, lo + 1, hi)
  }

  /** The number of histogram keys among lo..hi-1. */
  function KeyCount(h: map<int, nat>, lo: int, hi: int): nat
    decreases hi - lo
  {
    if lo >= hi then 0 else (if lo in h then 1 else 0) + KeyCount(h, lo + 1, hi)
  }

  /** The sum of all histogram counts; every key is a 16-bit sequence number. */
  function Total(h: map<int, nat>): nat {
    SumRange(h, 0, 0x1_0000)
  }

  /**
   * The state invariant the counters keep: stream 1 is the only stream, the histogram's keys are
   * exactly the seen sequence numbers, each with a positive count, `unique_count` is the number
   * of seen sequences, the counts add up to the classified packets, and classified packets are
   * R-TAG packets, which are packets.
   */
  ghost predicate Inv(st: Stats) {
    && st.streamSequences.Keys <= {STREAM_ID}
    && st.sequenceStats.Keys == Seen(st)
    && (forall s :: s in st.sequenceStats ==> IsU16(s) && st.sequenceStats[s] >= 1)
    && st.uniqueCount == |Seen(st)|
    && Total(st.sequenceStats) == st.uniqueCount + st.duplicateCount
    && st.uniqueCount + st.duplicateCount <= st.rtagPackets <= st.packetCount
  }

  /** `__init__`: no packets, no sequences, empty maps. */
  function Initial(): Stats {
    Stats(map[], 0, 0, 0, 0, map[])
  }

  /**
   * Lines 42-55: count the sequence in the histogram, then accept it as ORIGINAL and record it
   * when stream 1 has not seen it, or eliminate it as DUPLICATE.
   */
  function Classify(st: Stats, s: int): (Stats, Verdict) {
    var seen := Seen(st);
    var counted := st.(sequenceStats := st.sequenceStats[s := Count(st, s) + 1]);
    if s in seen then
      (counted.(streamSequences := st.streamSequences[STREAM_ID := seen],
                duplicateCount := st.duplicateCount + 1), Duplicate(s))
    else
      (counted.(streamSequences := st.streamSequences[STREAM_ID := seen + {s}],
                uniqueCount := st.uniqueCount + 1), Original(s))
  }

  /**
   * The body of `analyze_packet` once the two scans are done: `tagged` is what `has_rtag`
   * answered and `extracted` what `extract_sequence` returned.
   */
  function Step(st: Stats, tagged: bool, extracted: Option<int>): (Stats, Verdict) {
    var st1 := st.(packetCount := st.packetCount + 1);
    if !tagged then (st1, NoTag)
    else
      var st2 := st1.(rtagPackets := st1.rtagPackets + 1);
      match extracted
      case None => (st2, NoSequence)
      case Some(s) => Classify(st2, s)
  }

  /** `analyze_packet`: the new state and the verdict on the packet. */
  function Analyze(st: Stats, packet: seq<Byte>): (Stats, Verdict) {
    Step(st, RTag.HasRTag(packet), RTag.ExtractSequence(packet))
  }

  /** The state after feeding the packets, in order, to a fresh analyzer. */
  function Run(ps: seq<seq<Byte>>): Stats
    decreases |ps|
  {
    if ps == [] then Initial() else Analyze(Run(ps[..|ps| - 1]), ps[|ps| - 1]).0
  }

  /** The verdicts of that run, one per packet. */
  function Verdicts(ps: seq<seq<Byte>>): (vs: seq<Verdict>)
    ensures |vs| == |ps|
    decreases |ps|
  {
    if ps == [] then [] else Verdicts(ps[..|ps| - 1]) + [Analyze(Run(ps[..|ps| - 1]), ps[|ps| - 1]).1]
  }

  /** How many packets of ps yield the sequence number s. */
  function Carrying(ps: seq<seq<Byte>>, s: int): nat
    decreases |ps|
  {
    if ps == [] then 0
    else Carrying(ps[..|ps| - 1], s) + (if RTag.ExtractSequence(ps[|ps| - 1]) == Some(s) then 1 else 0)
  }

  /** How many entries of vs are v. */
  function Occurrences(vs: seq<Verdict>, v: Verdict): nat
    decreases |vs|
  {
    if vs == [] then 0 else Occurrences(vs[..|vs| - 1], v) + (if vs[|vs| - 1] == v then 1 else 0)
  }

  /**
   * The elimination rate of lines 107-109, `duplicate_count / rtag_packets * 100`, exact rather
   * than rounded; it is computed only when an R-TAG packet has been seen.
   */
  function EliminationRate(st: Stats): (r: Option<real>)
    ensures r.Some? <==> st.rtagPackets > 0
  {
    if st.rtagPackets > 0 then Some(st.duplicateCount as real / st.rtagPackets as real * 100.0) else None
  }

  /** The verdict of lines 156-162: every histogram count is 2, and something was eliminated. */
  predicate IsPerfectFrer(st: Stats) {
    (forall s :: s in st.sequenceStats ==> st.sequenceStats[s] == 2) && st.duplicateCount > 0
  }

  // ---------------------------------------------------------------- the histogram sums

  lemma {:induction false} SumRangeBump(h: map<int, nat>, lo: int, hi: int, s: int, v: nat)
    ensures SumRange(h[s := v], lo, hi) + (if lo <= s < hi then Get(h, s) else 0)
         == SumRange(h, lo, hi) + (if lo <= s < hi then v else 0)
    decreases hi - lo
  {
    if lo < hi {
      SumRangeBump(h, lo + 1, hi, s, v);
    }
  }

  lemma {:induction false} SumRangeAllTwice(h: map<int, nat>, lo: int, hi: int)
    requires forall s :: s in h ==> h[s] == 2
    ensures SumRange(h, lo, hi) == 2 * KeyCount(h, lo, hi)
    decreases hi - lo
  {
    if lo < hi {
      SumRangeAllTwice(h, lo + 1, hi);
    }
  }

  /** KeyCount counts the keys that fall in the range. */
  lemma {:induction false} KeyCountIsCardinality(h: map<int, nat>, lo: int, hi: int)
    ensures KeyCount(h, lo, hi) == |set k | k in h.Keys && lo <= k < hi|
    decreases hi - lo
  {
    var here := set k | k in h.Keys && lo <= k < hi;
    if lo >= hi {
      assert here == {};
    } else {
      KeyCountIsCardinality(h, lo + 1, hi);
      var rest := set k | k in h.Keys && lo + 1 <= k < hi;
      if lo in h {
        assert here == rest + {lo};
      } else {
        assert here == rest;
      }
    }
  }

  lemma KeyCountAll(h: map<int, nat>)
    requires forall s :: s in h ==> IsU16(s)
    ensures KeyCount(h, 0, 0x1_0000) == |h.Keys|
  {
    KeyCountIsCardinality(h, 0, 0x1_0000);
    assert (set k | k in h.Keys && 0 <= k < 0x1_0000) == h.Keys;
  }

  lemma {:induction false} SumRangeEmpty(lo: int, hi: int)
    ensures SumRange(map[], lo, hi) == 0
    decreases hi - lo
  {
    if lo < hi {
      SumRangeEmpty(lo + 1, hi);
    }
  }

  // ---------------------------------------------------------------- one call

  /** `__init__` establishes the invariant: nothing is counted and nothing is seen. */
  lemma InitialInv()
    ensures Inv(Initial()) && Seen(Initial()) == {} && Run([]) == Initial()
  {
    SumRangeEmpty(0, 0x1_0000);
  }

  /** Classification adds one to the histogram count of s and leaves every other count alone. */
  lemma ClassifyCounts(st: Stats, s: int)
    ensures var h' := Classify(st, s).0.sequenceStats;
      && h' == st.sequenceStats[s := Count(st, s) + 1]
      && h'.Keys == st.sequenceStats.Keys + {s}
      && Total(h') == Total(st.sequenceStats) + (if IsU16(s) then 1 else 0)
  {
    SumRangeBump(st.sequenceStats, 0, 0x1_0000, s, Count(st, s) + 1);
  }

  /** Classification records s on stream 1, and adds one to `unique_count` exactly when s is new. */
  lemma ClassifyRecords(st: Stats, s: int)
    requires st.streamSequences.Keys <= {STREAM_ID}
    ensures var st' := Classify(st, s).0;
      && st'.streamSequences.Keys <= {STREAM_ID}
      && Seen(st') == Seen(st) + {s}
      && |Seen(st')| == |Seen(st)| + (if s in Seen(st) then 0 else 1)
      && st'.uniqueCount == st.uniqueCount + (if s in Seen(st) then 0 else 1)
      && st'.duplicateCount == st.duplicateCount + (if s in Seen(st) then 1 else 0)
      && st'.packetCount == st.packetCount && st'.rtagPackets == st.rtagPackets
  {
    if s in Seen(st) {
      assert Seen(st) + {s} == Seen(st);
    }
  }

  /** Classification keeps the invariant, and counts the sequence once more. */
  lemma ClassifyKeepsInv(st: Stats, s: U16)
    requires Inv(st) && st.uniqueCount + st.duplicateCount < st.rtagPackets
    ensures Inv(Classify(st, s).0)
    ensures Seen(Classify(st, s).0) == Seen(st) + {s}
    ensures Count(Classify(st, s).0, s) == Count(st, s) + 1
    ensures forall t :: t != s ==> Count(Classify(st, s).0, t) == Count(st, t)
  {
    ClassifyCounts(st, s);
    ClassifyRecords(st, s);
  }

  /** The analyzer may skip `extract_sequence` on an untagged packet: the outcome is the same. */
  lemma AnalyzeIsStep(st: Stats, packet: seq<Byte>, tagged: bool, extracted: Option<int>)
    requires tagged == RTag.HasRTag(packet)
    requires tagged ==> extracted == RTag.ExtractSequence(packet)
    ensures Analyze(st, packet) == Step(st, tagged, extracted)
  {
  }

  /** One step keeps the invariant, given that only a tagged packet yields a 16-bit sequence. */
  lemma StepKeepsInv(st: Stats, tagged: bool, extracted: Option<int>)
    requires Inv(st)
    requires extracted.Some? ==> tagged && IsU16(extracted.value)
    ensures Inv(Step(st, tagged, extracted).0)
  {
    var st1 := st.(packetCount := st.packetCount + 1);
    var st2 := st1.(rtagPackets := st1.rtagPackets + 1);
    var r := Step(st, tagged, extracted).0;
    if !tagged {
      assert r == st1;
      CountersKeepInv(st, 1, 0);
    } else if extracted.None? {
      assert r == st2;
      CountersKeepInv(st, 1, 1);
    } else {
      assert r == Classify(st2, extracted.value).0;
      CountersKeepInv(st, 1, 1);
      ClassifyKeepsInv(st2, extracted.value);
    }
  }

  /**
   * What `analyze_packet` does to the counters: exactly one more packet, one more R-TAG packet
   * for a frame with `F1 C1`, and the verdict says which branch was taken; a packet from which
   * no sequence is extracted leaves the record and the histogram alone.
   */
  lemma AnalyzeCounts(st: Stats, packet: seq<Byte>)
    ensures var (st', v) := Analyze(st, packet);
      && st'.packetCount == st.packetCount + 1
      && st'.rtagPackets == st.rtagPackets + (if RTag.HasRTag(packet) then 1 else 0)
      && (v == NoTag <==> !RTag.HasRTag(packet))
      && (v == NoSequence <==> RTag.HasRTag(packet) && RTag.ExtractSequence(packet).None?)
      && (RTag.ExtractSequence(packet).None? ==> st'.sequenceStats == st.sequenceStats && Seen(st') == Seen(st))
  {
    RTag.ExtractImpliesHasRTag(packet);
  }

  /** `analyze_packet` keeps the invariant. */
  lemma AnalyzeKeepsInv(st: Stats, packet: seq<Byte>)
    requires Inv(st)
    ensures Inv(Analyze(st, packet).0)
  {
    RTag.ExtractImpliesHasRTag(packet);
    StepKeepsInv(st, RTag.HasRTag(packet), RTag.ExtractSequence(packet));
  }

  /** Counting packets that are not classified keeps the invariant. */
  lemma CountersKeepInv(st: Stats, packets: nat, rtagPackets: nat)
    requires Inv(st) && rtagPackets <= packets
    ensures Inv(st.(packetCount := st.packetCount + packets).(rtagPackets := st.rtagPackets + rtagPackets))
  {
  }

  /** First copy wins: the verdict on a sequence depends only on whether stream 1 has seen it. */
  lemma AnalyzeVerdict(st: Stats, packet: seq<Byte>, s: int)
    requires RTag.ExtractSequence(packet) == Some(s)
    ensures Analyze(st, packet).1 == (if s in Seen(st) then Duplicate(s) else Original(s))
    ensures Seen(Analyze(st, packet).0) == Seen(st) + {s}
    ensures Count(Analyze(st, packet).0, s) == Count(st, s) + 1
    ensures forall t :: t != s ==> Count(Analyze(st, packet).0, t) == Count(st, t)
  {
    RTag.ExtractImpliesHasRTag(packet);
  }

  // ---------------------------------------------------------------- whole runs

  lemma RunStep(ps: seq<seq<Byte>>, p: seq<Byte>)
    ensures Run(ps + [p]) == Analyze(Run(ps), p).0
    ensures Verdicts(ps + [p]) == Verdicts(ps) + [Analyze(Run(ps), p).1]
  {
    assert (ps + [p])[..|ps|] == ps;
  }

  lemma CarryingStep(ps: seq<seq<Byte>>, p: seq<Byte>, s: int)
    ensures Carrying(ps + [p], s) == Carrying(ps, s) + (if RTag.ExtractSequence(p) == Some(s) then 1 else 0)
  {
    assert (ps + [p])[..|ps|] == ps;
  }

  /** After any run the invariant holds, and `packet_count` is the number of packets fed. */
  lemma {:induction false} RunInvariant(ps: seq<seq<Byte>>)
    ensures Inv(Run(ps)) && Run(ps).packetCount == |ps|
    decreases |ps|
  {
    if ps == [] {
      InitialInv();
    } else {
      RunInvariant(ps[..|ps| - 1]);
      AnalyzeKeepsInv(Run(ps[..|ps| - 1]), ps[|ps| - 1]);
    }
  }

  /**
   * The histogram counts the packets: after any run, `sequence_stats[s]` is the number of packets
   * that carried s, and s is in `stream_sequences[1]` exactly when one did.
   */
  lemma {:induction false} HistogramCountsPackets(ps: seq<seq<Byte>>, s: int)
    ensures Count(Run(ps), s) == Carrying(ps, s)
    ensures s in Seen(Run(ps)) <==> Carrying(ps, s) > 0
    decreases |ps|
  {
    if ps != [] {
      var front, p := ps[..|ps| - 1], ps[|ps| - 1];
      assert ps == front + [p];
      HistogramCountsPackets(front, s);
      RunInvariant(front);
      RunInvariant(ps);
      RunStep(front, p);
      CarryingStep(front, p, s);
      AnalyzeKeepsInv(Run(front), p);
      match RTag.ExtractSequence(p)
      case None =>
      case Some(t) => AnalyzeVerdict(Run(front), p, t);
    }
  }

  /**
   * Exactly one ORIGINAL per seen sequence, and `sequence_stats[s] - 1` DUPLICATE verdicts: the
   * histogram count is the number of ORIGINAL and DUPLICATE verdicts on s together.
   */
  lemma {:induction false} VerdictCounts(ps: seq<seq<Byte>>, s: int)
    ensures Occurrences(Verdicts(ps), Original(s)) == (if s in Seen(Run(ps)) then 1 else 0)
    ensures Occurrences(Verdicts(ps), Duplicate(s)) + Occurrences(Verdicts(ps), Original(s)) == Count(Run(ps), s)
    decreases |ps|
  {
    if ps != [] {
      var front, p := ps[..|ps| - 1], ps[|ps| - 1];
      assert ps == front + [p];
      VerdictCounts(front, s);
      RunStep(front, p);
      var vs := Verdicts(ps);
      assert vs[..|vs| - 1] == Verdicts(front);
      RunInvariant(front);
      AnalyzeKeepsInv(Run(front), p);
      match RTag.ExtractSequence(p)
      case None =>
      case Some(t) => AnalyzeVerdict(Run(front), p, t);
    }
  }

  /** The verdict on the i-th packet is the one `analyze_packet` gives it in the state the packets before it left. */
  lemma {:induction false} VerdictAt(ps: seq<seq<Byte>>, i: int)
    requires 0 <= i < |ps|
    ensures |Verdicts(ps)| == |ps|
    ensures Verdicts(ps)[i] == Analyze(Run(ps[..i]), ps[i]).1
    decreases |ps|
  {
    var front := ps[..|ps| - 1];
    if i < |ps| - 1 {
      VerdictAt(front, i);
      assert front[..i] == ps[..i];
    } else if front != [] {
      VerdictAt(front, 0);
    }
  }

  /**
   * First copy wins, packet by packet: the i-th packet is ORIGINAL for s exactly when it carries s
   * and no earlier packet does, and DUPLICATE for s exactly when it carries s and an earlier one does.
   */
  lemma FirstCopyWins(ps: seq<seq<Byte>>, i: int, s: int)
    requires 0 <= i < |ps|
    ensures Verdicts(ps)[i] == Original(s) <==> RTag.ExtractSequence(ps[i]) == Some(s) && Carrying(ps[..i], s) == 0
    ensures Verdicts(ps)[i] == Duplicate(s) <==> RTag.ExtractSequence(ps[i]) == Some(s) && Carrying(ps[..i], s) > 0
  {
    VerdictAt(ps, i);
    HistogramCountsPackets(ps[..i], s);
    RTag.ExtractImpliesHasRTag(ps[i]);
    match RTag.ExtractSequence(ps[i])
    case None =>
    case Some(t) => AnalyzeVerdict(Run(ps[..i]), ps[i], t);
  }

  // ---------------------------------------------------------------- the reported figures

  /** The rate is a percentage: `duplicate_count` never exceeds `rtag_packets`. */
  lemma EliminationRateBounds(st: Stats)
    requires Inv(st) && st.rtagPackets > 0
    ensures 0.0 <= EliminationRate(st).value <= 100.0
  {
    Percentage(st.duplicateCount, st.rtagPackets);
  }

  lemma Percentage(part: nat, whole: nat)
    requires part <= whole && whole > 0
    ensures 0.0 <= part as real / whole as real * 100.0 <= 100.0
  {
    var q := part as real / whole as real;
    assert q * whole as real == part as real;
  }

  /** Perfect FRER means every accepted sequence was eliminated exactly once: as many duplicates as originals. */
  lemma PerfectFrerBalanced(st: Stats)
    requires Inv(st) && IsPerfectFrer(st)
    ensures st.duplicateCount == st.uniqueCount > 0
  {
    SumRangeAllTwice(st.sequenceStats, 0, 0x1_0000);
    KeyCountAll(st.sequenceStats);
  }

  /** When every R-TAG packet was classified, perfect FRER is an elimination rate of exactly 50%. */
  lemma PerfectFrerHalfRate(st: Stats)
    requires Inv(st) && IsPerfectFrer(st)
    requires st.rtagPackets == st.uniqueCount + st.duplicateCount
    ensures EliminationRate(st) == Some(50.0)
  {
    PerfectFrerBalanced(st);
    HalfOfDouble(st.uniqueCount, st.rtagPackets);
  }

  lemma HalfOfDouble(n: nat, whole: nat)
    requires n > 0 && whole == 2 * n
    ensures n as real / whole as real * 100.0 == 50.0
  {
    assert whole as real == 2.0 * n as real;
  }

  // ---------------------------------------------------------------- the senders' pattern

  /** Each frame twice in a row: the pattern every sender follows. */
  function Doubled(ps: seq<seq<Byte>>): (r: seq<seq<Byte>>)
    ensures |r| == 2 * |ps|
    decreases |ps|
  {
    if ps == [] then [] else Doubled(ps[..|ps| - 1]) + [ps[|ps| - 1], ps[|ps| - 1]]
  }

  /** Every frame appears twice in a row, in the order given. */
  lemma {:induction false} DoubledTwice(ps: seq<seq<Byte>>)
    ensures forall i :: 0 <= i < |ps| ==> Doubled(ps)[2 * i] == ps[i] && Doubled(ps)[2 * i + 1] == ps[i]
    decreases |ps|
  {
    if ps != [] {
      var front := ps[..|ps| - 1];
      DoubledTwice(front);
      forall i | 0 <= i < |ps| ensures Doubled(ps)[2 * i] == ps[i] && Doubled(ps)[2 * i + 1] == ps[i] {
        if i < |front| {
          assert Doubled(ps)[2 * i] == Doubled(front)[2 * i];
          assert Doubled(ps)[2 * i + 1] == Doubled(front)[2 * i + 1];
        }
      }
    }
  }

  /** The frames all carry sequence numbers, and no two the same one. */
  predicate DistinctSequences(ps: seq<seq<Byte>>) {
    && (forall i :: 0 <= i < |ps| ==> RTag.ExtractSequence(ps[i]).Some?)
    && (forall i, j :: 0 <= i < j < |ps| ==> RTag.ExtractSequence(ps[i]) != RTag.ExtractSequence(ps[j]))
  }

  /** Python's `range(lo, hi)`. */
  function Range(lo: nat, hi: nat): (r: seq<nat>)
    ensures |r| == if lo <= hi then hi - lo else 0
    ensures forall i :: 0 <= i < |r| ==> r[i] == lo + i
  {
    if hi <= lo then [] else seq(hi - lo, i => lo + i)
  }

  /** The frames a sender `build`s for the numbers ss, in that order. */
  function Built(build: nat -> seq<Byte>, ss: seq<nat>): (fs: seq<seq<Byte>>)
    ensures |fs| == |ss|
  {
    seq(|ss|, i requires 0 <= i < |ss| => build(ss[i]))
  }

  /** Every frame `build` makes for a 16-bit number decodes to that number. */
  predicate DecodesEvery(build: nat -> seq<Byte>) {
    forall s: nat :: s < 0x1_0000 ==> RTag.ExtractSequence(build(s)) == Some(s)
  }

  /** Each frame of ss decodes to its own number, and no number is sent for two frames. */
  predicate DecodesDistinct(build: nat -> seq<Byte>, ss: seq<nat>) {
    && (forall i :: 0 <= i < |ss| ==> RTag.ExtractSequence(build(ss[i])) == Some(ss[i]))
    && (forall i, j :: 0 <= i < j < |ss| ==> ss[i] != ss[j])
  }

  /** A builder that decodes every 16-bit number sends `range(lo, hi)` with distinct numbers. */
  lemma RangeDecodesDistinct(build: nat -> seq<Byte>, lo: nat, hi: nat)
    requires hi <= 0x1_0000
    requires DecodesEvery(build)
    ensures DecodesDistinct(build, Range(lo, hi))
    ensures forall s :: s in Range(lo, hi) <==> lo <= s < hi
  {
    var r := Range(lo, hi);
    forall s
      ensures s in r <==> lo <= s < hi
    {
      if lo <= s < hi {
        assert r[s - lo] == s;
      }
    }
  }

  /** Such frames carry distinct sequences, exactly the numbers of ss. */
  lemma BuiltDistinct(build: nat -> seq<Byte>, ss: seq<nat>)
    requires DecodesDistinct(build, ss)
    ensures DistinctSequences(Built(build, ss))
    ensures forall s :: s in Sequences(Built(build, ss)) <==> s in ss
  {
    var fs := Built(build, ss);
    assert forall i :: 0 <= i < |fs| ==> RTag.ExtractSequence(fs[i]) == Some(ss[i]);
    forall s
      ensures s in Sequences(fs) <==> s in ss
    {
      SequencesMembers(fs, s);
      if s in ss {
        var i :| 0 <= i < |ss| && ss[i] == s;
        assert RTag.ExtractSequence(fs[i]) == Some(s);
      }
    }
  }

  /**
   * What a fresh analyzer reports after n distinct sequences were each sent twice: 2n packets,
   * all with an R-TAG, n accepted and n eliminated, every sequence counted twice, perfect FRER
   * and an elimination rate of 50%.
   */
  predicate EachSentTwice(st: Stats, n: nat) {
    && st.packetCount == 2 * n && st.rtagPackets == 2 * n
    && st.uniqueCount == n && st.duplicateCount == n
    && (forall s :: s in Seen(st) ==> Count(st, s) == 2)
    && IsPerfectFrer(st) && EliminationRate(st) == Some(50.0)
  }

  /** Frames with distinct sequence numbers, each sent twice, leave that report, and the sequences seen are the ones sent. */
  lemma BuiltDoubled(build: nat -> seq<Byte>, ss: seq<nat>)
    requires DecodesDistinct(build, ss) && |ss| > 0
    ensures var st := Run(Doubled(Built(build, ss)));
      EachSentTwice(st, |ss|) && forall s :: s in Seen(st) <==> s in ss
  {
    var fs := Built(build, ss);
    BuiltDistinct(build, ss);
    DoubledRun(fs);
    DoubledRunPerfect(fs);
    RunInvariant(Doubled(fs));
  }

  /** `BuiltDoubled` for the numbers `range(lo, hi)`. */
  lemma RangeDoubled(build: nat -> seq<Byte>, lo: nat, hi: nat)
    requires lo < hi <= 0x1_0000
    requires DecodesEvery(build)
    ensures var st := Run(Doubled(Built(build, Range(lo, hi))));
      EachSentTwice(st, hi - lo) && forall s :: s in Seen(st) <==> lo <= s < hi
  {
    RangeDecodesDistinct(build, lo, hi);
    BuiltDoubled(build, Range(lo, hi));
  }

  /** The same frame twice to a state that has not seen its sequence: ORIGINAL, then DUPLICATE. */
  lemma SentTwice(st: Stats, packet: seq<Byte>, s: int)
    requires Inv(st) && RTag.ExtractSequence(packet) == Some(s) && s !in Seen(st)
    ensures var (st1, v1) := Analyze(st, packet);
      var (st2, v2) := Analyze(st1, packet);
      && v1 == Original(s) && v2 == Duplicate(s)
      && Count(st2, s) == 2
      && st2.uniqueCount == st.uniqueCount + 1 && st2.duplicateCount == st.duplicateCount + 1
      && st2.packetCount == st.packetCount + 2 && st2.rtagPackets == st.rtagPackets + 2
  {
    var st1 := Analyze(st, packet).0;
    AnalyzeVerdict(st, packet, s);
    AnalyzeVerdict(st1, packet, s);
    AnalyzeKeepsInv(st, packet);
    AnalyzeKeepsInv(st1, packet);
  }

  /** The sequence numbers the packets carry. */
  function Sequences(ps: seq<seq<Byte>>): set<int>
    decreases |ps|
  {
    if ps == [] then {}
    else
      Sequences(ps[..|ps| - 1])
        + (match RTag.ExtractSequence(ps[|ps| - 1]) case None => {} case Some(s) => {s})
  }

  lemma {:induction false} SequencesMembers(ps: seq<seq<Byte>>, s: int)
    ensures s in Sequences(ps) <==> exists i :: 0 <= i < |ps| && RTag.ExtractSequence(ps[i]) == Some(s)
    decreases |ps|
  {
    if ps != [] {
      var front := ps[..|ps| - 1];
      SequencesMembers(front, s);
      if s in Sequences(front) {
        var i :| 0 <= i < |front| && RTag.ExtractSequence(front[i]) == Some(s);
        assert ps[i] == front[i];
      }
      if exists i :: 0 <= i < |ps| && RTag.ExtractSequence(ps[i]) == Some(s) {
        var i :| 0 <= i < |ps| && RTag.ExtractSequence(ps[i]) == Some(s);
        if i < |front| {
          assert front[i] == ps[i];
        }
      }
    }
  }

  /** Dropping the last frame keeps the sequences distinct, and the last one was not carried before. */
  lemma DistinctFront(ps: seq<seq<Byte>>)
    requires DistinctSequences(ps) && ps != []
    ensures DistinctSequences(ps[..|ps| - 1])
    ensures RTag.ExtractSequence(ps[|ps| - 1]).value !in Sequences(ps[..|ps| - 1])
  {
    var front := ps[..|ps| - 1];
    var s := RTag.ExtractSequence(ps[|ps| - 1]).value;
    SequencesMembers(front, s);
    assert forall i :: 0 <= i < |front| ==> front[i] == ps[i];
  }

  /** n sequences accepted once and eliminated once: the state a doubled run leaves. */
  ghost predicate Balanced(st: Stats, n: nat, seen: set<int>) {
    && Inv(st) && Seen(st) == seen
    && st.uniqueCount == n && st.duplicateCount == n && st.rtagPackets == 2 * n
    && (forall s :: s in st.sequenceStats ==> st.sequenceStats[s] == 2)
  }

  /** A frame with a new sequence number, sent twice, moves a balanced state to the next one. */
  lemma BalancedStep(st: Stats, n: nat, seen: set<int>, packet: seq<Byte>, s: int)
    requires Balanced(st, n, seen)
    requires RTag.ExtractSequence(packet) == Some(s) && s !in seen
    ensures Balanced(Analyze(Analyze(st, packet).0, packet).0, n + 1, seen + {s})
  {
    var st1 := Analyze(st, packet).0;
    var st2 := Analyze(st1, packet).0;
    SentTwice(st, packet, s);
    AnalyzeVerdict(st, packet, s);
    AnalyzeVerdict(st1, packet, s);
    AnalyzeKeepsInv(st, packet);
    AnalyzeKeepsInv(st1, packet);
    forall t | t in st2.sequenceStats ensures st2.sequenceStats[t] == 2 {
      if t != s {
        assert Count(st2, t) == Count(st, t);
      }
    }
  }

  /**
   * Sending frames with distinct sequence numbers twice each: every frame is accepted once and
   * eliminated once, every histogram count is 2, all packets count as R-TAG packets, and stream 1
   * has seen exactly the sequence numbers sent.
   */
  lemma {:induction false} DoubledRun(ps: seq<seq<Byte>>)
    requires DistinctSequences(ps)
    ensures Balanced(Run(Doubled(ps)), |ps|, Sequences(ps))
    decreases |ps|
  {
    if ps == [] {
      InitialInv();
      assert Doubled(ps) == [];
    } else {
      var front, p := ps[..|ps| - 1], ps[|ps| - 1];
      DistinctFront(ps);
      DoubledRun(front);
      DoubledLast(ps);
      BalancedStep(Run(Doubled(front)), |front|, Sequences(front), p, RTag.ExtractSequence(p).value);
    }
  }

  /** The last frame, sent twice, after the doubled run of the others; and the sequence it adds. */
  lemma DoubledLast(ps: seq<seq<Byte>>)
    requires ps != [] && RTag.ExtractSequence(ps[|ps| - 1]).Some?
    ensures var front, p := ps[..|ps| - 1], ps[|ps| - 1];
      && Run(Doubled(ps)) == Analyze(Analyze(Run(Doubled(front)), p).0, p).0
      && Sequences(ps) == Sequences(front) + {RTag.ExtractSequence(p).value}
  {
    var front, p := ps[..|ps| - 1], ps[|ps| - 1];
    assert Doubled(ps) == Doubled(front) + [p] + [p];
    RunStep(Doubled(front), p);
    RunStep(Doubled(front) + [p], p);
  }

  /** Hence a non-empty doubled run is perfect FRER at an elimination rate of 50%. */
  lemma DoubledRunPerfect(ps: seq<seq<Byte>>)
    requires DistinctSequences(ps) && |ps| > 0
    ensures IsPerfectFrer(Run(Doubled(ps)))
    ensures EliminationRate(Run(Doubled(ps))) == Some(50.0)
  {
    DoubledRun(ps);
    RunInvariant(Doubled(ps));
    PerfectFrerHalfRate(Run(Doubled(ps)));
  }

  /** 65535 and 0 are different sequence numbers: after 65535, a 0 is accepted, not eliminated. */
  lemma NoWraparound(st: Stats, p: seq<Byte>, q: seq<Byte>)
    requires Inv(st) && Seen(st) == {}
    requires RTag.ExtractSequence(p) == Some(0xFFFF) && RTag.ExtractSequence(q) == Some(0)
    ensures Analyze(st, p).1 == Original(0xFFFF)
    ensures Analyze(Analyze(st, p).0, q).1 == Original(0)
  {
    AnalyzeVerdict(st, p, 0xFFFF);
    AnalyzeVerdict(Analyze(st, p).0, q, 0);
  }

  // ---------------------------------------------------------------- streams that share sequence numbers

  /** Frame k of a doubled list is frame k / 2 of the list. */
  lemma DoubledAt(ps: seq<seq<Byte>>, k: nat)
    requires k < |Doubled(ps)|
    ensures Doubled(ps)[k] == ps[k / 2]
  {
    DoubledTwice(ps);
    var i := k / 2;
    if k % 2 == 0 {
      assert k == 2 * i;
    } else {
      assert k == 2 * i + 1;
    }
  }

  lemma {:induction false} CarryingAppend(a: seq<seq<Byte>>, b: seq<seq<Byte>>, s: int)
    ensures Carrying(a + b, s) == Carrying(a, s) + Carrying(b, s)
    decreases |b|
  {
    if b == [] {
      assert a + b == a;
    } else {
      var front, p := b[..|b| - 1], b[|b| - 1];
      assert a + b == (a + front) + [p];
      CarryingStep(a + front, p, s);
      CarryingStep(front, p, s);
      assert front + [p] == b;
      CarryingAppend(a, front, s);
    }
  }

  /** A doubled list carries every sequence number twice as often as the list. */
  lemma {:induction false} CarryingDoubled(ps: seq<seq<Byte>>, s: int)
    ensures Carrying(Doubled(ps), s) == 2 * Carrying(ps, s)
    decreases |ps|
  {
    if ps != [] {
      var front, p := ps[..|ps| - 1], ps[|ps| - 1];
      assert Doubled(ps) == (Doubled(front) + [p]) + [p];
      CarryingStep(Doubled(front) + [p], p, s);
      CarryingStep(Doubled(front), p, s);
      CarryingDoubled(front, s);
    }
  }

  /** Frames built for distinct numbers carry each number of ss once and no other. */
  lemma {:induction false} CarryingBuilt(build: nat -> seq<Byte>, ss: seq<nat>, s: int)
    requires DecodesDistinct(build, ss)
    ensures Carrying(Built(build, ss), s) == if s in ss then 1 else 0
    decreases |ss|
  {
    if ss != [] {
      var front, last := ss[..|ss| - 1], ss[|ss| - 1];
      var fs := Built(build, ss);
      assert fs[..|fs| - 1] == Built(build, front);
      assert fs[|fs| - 1] == build(last);
      assert DecodesDistinct(build, front) by {
        assert forall i :: 0 <= i < |front| ==> front[i] == ss[i];
      }
      CarryingBuilt(build, front, s);
      assert last !in front by {
        assert forall i :: 0 <= i < |front| ==> front[i] == ss[i] && ss[i] != last;
      }
      assert ss == front + [last];
    }
  }

  /** A doubled `range(lo, hi)` of a decoding builder carries each of its numbers exactly twice. */
  lemma RangeDoubledCarrying(build: nat -> seq<Byte>, lo: nat, hi: nat, s: int)
    requires hi <= 0x1_0000 && DecodesEvery(build)
    ensures Carrying(Doubled(Built(build, Range(lo, hi))), s) == if lo <= s < hi then 2 else 0
  {
    RangeDecodesDistinct(build, lo, hi);
    CarryingDoubled(Built(build, Range(lo, hi)), s);
    CarryingBuilt(build, Range(lo, hi), s);
  }

  /** Every frame carries a sequence number in lo..hi-1. */
  predicate CarriesWithin(ps: seq<seq<Byte>>, lo: int, hi: int) {
    forall i :: 0 <= i < |ps| ==>
      RTag.ExtractSequence(ps[i]).Some? && lo <= RTag.ExtractSequence(ps[i]).value < hi
  }

  /** Every frame of a doubled `range(lo, hi)` of a decoding builder carries a number of the range. */
  lemma RangeDoubledWithin(build: nat -> seq<Byte>, lo: nat, hi: nat)
    requires lo <= hi <= 0x1_0000 && DecodesEvery(build)
    ensures CarriesWithin(Doubled(Built(build, Range(lo, hi))), lo, hi)
  {
    var fs := Built(build, Range(lo, hi));
    forall k | 0 <= k < |Doubled(fs)|
      ensures RTag.ExtractSequence(Doubled(fs)[k]).Some? && lo <= RTag.ExtractSequence(Doubled(fs)[k]).value < hi
    {
      DoubledAt(fs, k);
    }
  }

  lemma RunAppendLast(a: seq<seq<Byte>>, b: seq<seq<Byte>>)
    requires b != []
    ensures Run(a + b) == Analyze(Run(a + b[..|b| - 1]), b[|b| - 1]).0
  {
    assert a + b == (a + b[..|b| - 1]) + [b[|b| - 1]];
    RunStep(a + b[..|b| - 1], b[|b| - 1]);
  }

  /** A packet whose sequence number stream 1 has seen is eliminated and counted. */
  lemma SeenStep(st: Stats, packet: seq<Byte>, s: int)
    requires RTag.ExtractSequence(packet) == Some(s) && s in Seen(st)
    ensures var st' := Analyze(st, packet).0;
      && st'.packetCount == st.packetCount + 1 && st'.rtagPackets == st.rtagPackets + 1
      && st'.uniqueCount == st.uniqueCount && st'.duplicateCount == st.duplicateCount + 1
      && Seen(st') == Seen(st)
      && forall t :: Count(st', t) == Count(st, t) + (if s == t then 1 else 0)
  {
    RTag.ExtractImpliesHasRTag(packet);
    AnalyzeVerdict(st, packet, s);
  }

  /**
   * Packets whose sequence numbers stream 1 has all seen are all eliminated: each adds one packet,
   * one R-TAG packet and one duplicate, nothing is accepted and the record stays as it was.
   */
  lemma {:induction false} AllSeenAfter(a: seq<seq<Byte>>, b: seq<seq<Byte>>)
    requires forall i :: 0 <= i < |b| ==>
      RTag.ExtractSequence(b[i]).Some? && RTag.ExtractSequence(b[i]).value in Seen(Run(a))
    ensures var st, st' := Run(a), Run(a + b);
      && st'.packetCount == st.packetCount + |b| && st'.rtagPackets == st.rtagPackets + |b|
      && st'.uniqueCount == st.uniqueCount && st'.duplicateCount == st.duplicateCount + |b|
      && Seen(st') == Seen(st)
    decreases |b|
  {
    if b == [] {
      assert a + b == a;
    } else {
      var front, p := b[..|b| - 1], b[|b| - 1];
      assert forall i :: 0 <= i < |front| ==> front[i] == b[i];
      AllSeenAfter(a, front);
      RunAppendLast(a, b);
      SeenStep(Run(a + front), p, RTag.ExtractSequence(p).value);
    }
  }

  /** ... and each of them adds one to its number's histogram count. */
  lemma {:induction false} AllSeenCounts(a: seq<seq<Byte>>, b: seq<seq<Byte>>, s: int)
    requires forall i :: 0 <= i < |b| ==>
      RTag.ExtractSequence(b[i]).Some? && RTag.ExtractSequence(b[i]).value in Seen(Run(a))
    ensures Count(Run(a + b), s) == Count(Run(a), s) + Carrying(b, s)
    decreases |b|
  {
    if b == [] {
      assert a + b == a;
    } else {
      var front, p := b[..|b| - 1], b[|b| - 1];
      assert forall i :: 0 <= i < |front| ==> front[i] == b[i];
      AllSeenAfter(a, front);
      AllSeenCounts(a, front, s);
      RunAppendLast(a, b);
      SeenStep(Run(a + front), p, RTag.ExtractSequence(p).value);
    }
  }

  /**
   * Three senders each send `range(lo, hi)` twice per number, one after the other, to a fresh
   * analyzer. Only the first sender's copies meet unseen numbers: n numbers are accepted and 5n
   * packets eliminated, every histogram count is 6, the run is not perfect FRER, and the
   * elimination rate is 5/6, i.e. 83 1/3 %.
   */
  lemma SharedSequences(b1: nat -> seq<Byte>, b2: nat -> seq<Byte>, b3: nat -> seq<Byte>, lo: nat, hi: nat)
    requires lo < hi <= 0x1_0000
    requires DecodesEvery(b1) && DecodesEvery(b2) && DecodesEvery(b3)
    ensures var n := hi - lo;
      var r := Range(lo, hi);
      var st := Run(Doubled(Built(b1, r)) + Doubled(Built(b2, r)) + Doubled(Built(b3, r)));
      && st.packetCount == 6 * n && st.rtagPackets == 6 * n
      && st.uniqueCount == n && st.duplicateCount == 5 * n
      && (forall s :: s in Seen(st) <==> lo <= s < hi)
      && (forall s :: lo <= s < hi ==> Count(st, s) == 6)
      && !IsPerfectFrer(st)
      && EliminationRate(st) == Some(250.0 / 3.0)
  {
    var r := Range(lo, hi);
    var d1, d2, d3 := Doubled(Built(b1, r)), Doubled(Built(b2, r)), Doubled(Built(b3, r));
    RangeDoubled(b1, lo, hi);
    RangeDoubledWithin(b2, lo, hi);
    RangeDoubledWithin(b3, lo, hi);
    forall s ensures Carrying(d2, s) == Carrying(d3, s) == if lo <= s < hi then 2 else 0 {
      RangeDoubledCarrying(b2, lo, hi, s);
      RangeDoubledCarrying(b3, lo, hi, s);
    }
    RepeatedAfterBalanced(d1, d2, d3, lo, hi);
  }

  /** `SharedSequences` for any three frame lists: the first a doubled run of lo..hi-1, the other two each carrying every number of it twice. */
  lemma RepeatedAfterBalanced(d1: seq<seq<Byte>>, d2: seq<seq<Byte>>, d3: seq<seq<Byte>>, lo: int, hi: int)
    requires lo < hi
    requires EachSentTwice(Run(d1), hi - lo) && forall s :: s in Seen(Run(d1)) <==> lo <= s < hi
    requires CarriesWithin(d2, lo, hi) && CarriesWithin(d3, lo, hi)
    requires |d2| == |d3| == 2 * (hi - lo)
    requires forall s :: Carrying(d2, s) == Carrying(d3, s) == if lo <= s < hi then 2 else 0
    ensures var n := hi - lo;
      var st := Run(d1 + d2 + d3);
      && st.packetCount == 6 * n && st.rtagPackets == 6 * n
      && st.uniqueCount == n && st.duplicateCount == 5 * n
      && (forall s :: s in Seen(st) <==> lo <= s < hi)
      && (forall s :: lo <= s < hi ==> Count(st, s) == 6)
      && !IsPerfectFrer(st)
      && EliminationRate(st) == Some(250.0 / 3.0)
  {
    var rest := d2 + d3;
    CarriesWithinAppend(d2, d3, lo, hi);
    AllSeenAfter(d1, rest);
    assert d1 + d2 + d3 == d1 + rest;
    var st := Run(d1 + rest);
    forall s | lo <= s < hi ensures Count(st, s) == 6 {
      AllSeenCounts(d1, rest, s);
      CarryingAppend(d2, d3, s);
    }
    RunCountedNotTwice(d1 + rest, lo);
    FiveOfSix(hi - lo, st.duplicateCount, st.rtagPackets);
  }

  lemma CarriesWithinAppend(a: seq<seq<Byte>>, b: seq<seq<Byte>>, lo: int, hi: int)
    requires CarriesWithin(a, lo, hi) && CarriesWithin(b, lo, hi)
    ensures CarriesWithin(a + b, lo, hi)
  {
    forall i | |a| <= i < |a + b| ensures (a + b)[i] == b[i - |a|] { }
  }

  /** After any run, a seen sequence whose histogram count is not 2 rules out perfect FRER. */
  lemma RunCountedNotTwice(ps: seq<seq<Byte>>, s: int)
    requires s in Seen(Run(ps)) && Count(Run(ps), s) != 2
    ensures !IsPerfectFrer(Run(ps))
  {
    RunInvariant(ps);
    assert s in Run(ps).sequenceStats;
  }

  /** Five packets eliminated out of every six is a rate of 83 1/3 %. */
  lemma FiveOfSix(n: nat, eliminated: nat, whole: nat)
    requires n > 0 && eliminated == 5 * n && whole == 6 * n
    ensures eliminated as real / whole as real * 100.0 == 250.0 / 3.0
  {
    assert eliminated as real == 5.0 * n as real;
    assert whole as real == 6.0 * n as real;
  }
}
