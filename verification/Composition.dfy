/**
  Peak-hold and gain control together: scanning a held frame is the same as scanning all packets of
  its batch. Between the two the frame is sent, which puts up to 42 bytes of headers in front of it: 8
  for UDP, 20 for IP and, unless it is sent in fragments, 14 for Ethernet. What the gain task finds at its
  offsets 54 (azimuth), 70 (sample count) and 74 (samples) thus lay up to 42 bytes further in front when
  the packets were merged from offset 32 on. It depends on all these numbers being even.
*/
module Composition {
  import opened MachineTypes
  import opened GainRing
  import opened LineScan
  import opened PeakHold
  import opened Batch

  const ALL_HEADERS := 42

  ghost predicate SendHeaders(headers: seq<Byte>) { |headers| % 2 == 0 && |headers| <= ALL_HEADERS }

  /** The pair of segment `k` that holds its first sample, when the headers have `h` bytes. */
  function FirstSamplePair(h: nat, k: nat): nat
    requires h <= ALL_HEADERS
  {
    if k == 0 then (ALL_HEADERS - h) / 2 else 0
  }

  /** The sample count that the gain task reads from a frame after it was sent. */
  function ScanCount(headers: seq<Byte>, frame: Frame): Word {
    if frame != [] && |headers| + |frame[0]| >= HEADER_LENGTH then SampleCount(headers + frame[0]) else 0
  }

  /** The line index that the gain task reads from a frame after it was sent. */
  function ScanIndex(headers: seq<Byte>, frame: Frame): nat {
    if frame != [] && |headers| + |frame[0]| >= HEADER_LENGTH then LineIndex(headers + frame[0]) else 0
  }

  /** Every segment holds `n` samples. */
  ghost predicate LongEnough(frame: Frame, n: nat) {
    forall k :: 0 <= k < |frame| ==> SampleStart(k) + 2 * n <= |frame[k]|
  }

  /**
    Packets of the same number of segments whose scanned range lies inside the merge windows. The gain
    task can process the first one as it is after the send; where the others have a say in the sample
    count or in the azimuth, they announce the same count and an azimuth inside the table.
  */
  ghost predicate Aligned(headers: seq<Byte>, packets: seq<Packet>) {
    && SendHeaders(headers)
    && Mergeable(packets)
    && packets[0].segments != []
    && |headers| + |packets[0].segments[0]| >= HEADER_LENGTH
    && ScanCount(headers, packets[0].segments) > 0
    && ScanIndex(headers, packets[0].segments) < LINES
    && LongEnough(WithHeaders(headers, packets[0].segments), ScanCount(headers, packets[0].segments))
    && forall m :: 1 <= m < |packets| ==> AlignedWith(headers, packets[0].segments, packets[m])
  }

  ghost predicate AlignedWith(headers: seq<Byte>, first: Frame, packet: Packet)
    requires SendHeaders(headers) && Fits(first, packet)
  {
    && |packet.segments| == |first|
    && (forall k :: 0 <= k < |first| ==>
          FirstSamplePair(|headers|, k) + ScanCount(headers, first) <= Pairs(packet.total, k))
    && (forall b :: Max(FIRST_CURSOR, 70 - |headers|) <= b < 73 - |headers| && first != [] ==>
          b < |packet.segments[0]| && b < |first[0]| && packet.segments[0][b] == first[0][b])
    && (54 - |headers| >= FIRST_CURSOR ==> ScanIndex(headers, packet.segments) < LINES)
  }

  /** A byte of the first segment is found `|headers|` bytes later. */
  lemma BehindHeaders(headers: seq<Byte>, frame: Frame, at: nat)
    requires frame != [] && |headers| <= at && at + 2 <= |headers| + |frame[0]|
    ensures BigEndian(headers + frame[0], at) == BigEndian(frame[0], at - |headers|)
  {
  }

  /** A packet of one segment that holds `n` samples behind 32 bytes, in a buffer that also holds its window. */
  ghost predicate SingleSegment(packet: Packet, n: nat) {
    packet.total == 32 + 2 * n < SEGMENT && |packet.segments| == 1 && |packet.segments[0]| >= 64 + 2 * n
  }

  /**
    For an ordinary send, with 42 bytes of headers: every batch of packets of one segment with `n` samples
    each is aligned if the first one announces `n` and an azimuth inside the table.
  */
  lemma SingleSegmentsAligned(headers: seq<Byte>, packets: seq<Packet>, n: Word)
    requires |headers| == ALL_HEADERS && packets != [] && n > 0
    requires forall m :: 0 <= m < |packets| ==> SingleSegment(packets[m], n)
    requires
      && SingleSegment(packets[0], n)
      && packets[0].segments[0][28..31] == [0, n / 0x100, n % 0x100]
      && BigEndian(packets[0].segments[0], 12) < 64800
    ensures Aligned(headers, packets)
  {
    var first := packets[0].segments;
    AnnouncedCount(headers, first[0], n);
    BehindHeaders(headers, first, 54);
    forall m | 1 <= m < |packets|
      ensures Fits(first, packets[m]) && AlignedWith(headers, first, packets[m])
    {
      SinglesAligned(headers, first, packets[m], n);
    }
  }

  lemma AnnouncedCount(headers: seq<Byte>, first: seq<Byte>, n: Word)
    requires |headers| == ALL_HEADERS && |first| >= 32 && first[28..31] == [0, n / 0x100, n % 0x100]
    ensures SampleCount(headers + first) == n
  {
    var sent, count := headers + first, first[28..31];
    assert sent[70] == first[28] == count[0] && sent[71] == first[29] == count[1] && sent[72] == first[30] == count[2];
  }

  lemma SinglesAligned(headers: seq<Byte>, first: Frame, packet: Packet, n: Word)
    requires |headers| == ALL_HEADERS && SingleSegment(packet, n)
    requires |first| == 1 && |first[0]| >= 64 + 2 * (n as int) && ScanCount(headers, first) == n
    ensures Fits(first, packet) && AlignedWith(headers, first, packet)
  {
    assert Pairs(packet.total, 0) == 16 + n;
  }

  function SampleAt(frame: Frame, k: nat, j: nat): Word
    requires k < |frame| && SampleStart(k) + 2 * j + 2 <= |frame[k]|
  {
    BigEndian(frame[k], SampleStart(k) + 2 * j)
  }

  /** A saturated frame has a saturated sample at some scanned position of some segment... */
  lemma {:induction false} SaturatedPosition(frame: Frame, n: nat, from: nat) returns (k: nat, j: nat)
    requires from <= |frame| && Saturated(SamplesFrom(frame, n, from))
    ensures k < |frame| && j < n && SampleStart(k) + 2 * j + 2 <= |frame[k]| && SampleAt(frame, k, j) > SATURATION
    decreases |frame| - from
  {
    var here, rest := SegmentSamples(frame[from], SampleStart(from), n), SamplesFrom(frame, n, from + 1);
    SaturatedConcat(here, rest);
    if Saturated(here) {
      var i :| 0 <= i < |here| && here[i] > SATURATION;
      k, j := from, i;
    } else {
      k, j := SaturatedPosition(frame, n, from + 1);
    }
  }

  /** ...and the other way round. */
  lemma {:induction false} PositionSaturates(frame: Frame, n: nat, from: nat, k: nat, j: nat)
    requires from <= k < |frame| && j < n && SampleStart(k) + 2 * j + 2 <= |frame[k]|
    requires SampleAt(frame, k, j) > SATURATION
    ensures Saturated(SamplesFrom(frame, n, from))
    decreases k - from
  {
    var here, rest := SegmentSamples(frame[from], SampleStart(from), n), SamplesFrom(frame, n, from + 1);
    SaturatedConcat(here, rest);
    if k == from {
      assert here[j] > SATURATION;
    } else {
      PositionSaturates(frame, n, from + 1, k, j);
    }
  }

  lemma {:induction false} LongIsReadable(frame: Frame, n: nat, k: nat)
    requires LongEnough(frame, n) && k <= |frame|
    ensures Readable(frame, n, k)
    decreases |frame| - k
  {
    if k < |frame| {
      LongIsReadable(frame, n, k + 1);
    }
  }

  // ----- Header fields of the held frame

  /** A byte of pair `j` in which all packets agree stays as it is. */
  lemma AgreedByte(packets: seq<Packet>, j: nat, b: nat)
    requires Mergeable(packets) && packets[0].segments != []
    requires b == FIRST_CURSOR + 2 * j || b == FIRST_CURSOR + 2 * j + 1
    requires FIRST_CURSOR + 2 * j + 2 <= |packets[0].segments[0]|
    requires forall m :: 1 <= m < |packets| && packets[m].segments != [] && b < |packets[m].segments[0]| ==>
      packets[m].segments[0][b] == packets[0].segments[0][b]
    ensures Hold(packets)[0][b] == packets[0].segments[0][b]
  {
    var m := PeakHolder(packets, 0, j);
    SameValueSameBytes(Hold(packets)[0], packets[m].segments[0], FIRST_CURSOR + 2 * j);
  }

  /** Bytes of the sample count in front of the window, or in which all packets agree, are those of the first packet. */
  lemma HeldCountByte(headers: seq<Byte>, packets: seq<Packet>, b: nat)
    requires Aligned(headers, packets) && 70 - |headers| <= b < 73 - |headers|
    ensures b < |packets[0].segments[0]| && Hold(packets)[0][b] == packets[0].segments[0][b]
  {
    if b < FIRST_CURSOR {
      FrontByte(packets, b);
    } else {
      forall m | 1 <= m < |packets| && packets[m].segments != [] && b < |packets[m].segments[0]|
        ensures packets[m].segments[0][b] == packets[0].segments[0][b]
      {
        assert AlignedWith(headers, packets[0].segments, packets[m]);
      }
      AgreedByte(packets, (b - FIRST_CURSOR) / 2, b);
    }
  }

  lemma SameCount(headers: seq<Byte>, a: seq<Byte>, b: seq<Byte>)
    requires |headers| <= ALL_HEADERS && |headers| + |a| >= HEADER_LENGTH && |headers| + |b| >= HEADER_LENGTH
    requires forall i :: 70 - |headers| <= i < 73 - |headers| ==> a[i] == b[i]
    ensures SampleCount(headers + a) == SampleCount(headers + b)
  {
    var x, y := headers + a, headers + b;
    assert forall i :: 70 <= i < 73 ==> x[i] == a[i - |headers|] && y[i] == b[i - |headers|];
    assert x[70] == y[70] && x[71] == y[71] && x[72] == y[72];
  }

  /** After the send the held frame announces the sample count of the first packet. */
  lemma HeldCount(headers: seq<Byte>, packets: seq<Packet>)
    requires Aligned(headers, packets)
    ensures ScanCount(headers, Hold(packets)) == ScanCount(headers, packets[0].segments)
  {
    var held, first := Hold(packets)[0], packets[0].segments[0];
    forall b | 70 - |headers| <= b < 73 - |headers| ensures held[b] == first[b] {
      HeldCountByte(headers, packets, b);
    }
    SameCount(headers, held, first);
  }

  /** The azimuth of the first packet stays when it lies in front of the window. */
  lemma HeldIndexOfFirst(headers: seq<Byte>, packets: seq<Packet>)
    requires Aligned(headers, packets) && 56 - |headers| <= FIRST_CURSOR
    ensures ScanIndex(headers, Hold(packets)) == ScanIndex(headers, packets[0].segments)
  {
    FrontByte(packets, 54 - |headers|);
    FrontByte(packets, 55 - |headers|);
    SameAzimuth(headers, Hold(packets), packets[0].segments);
  }

  /** The merge leaves the bytes in front of the window alone. */
  lemma FrontByte(packets: seq<Packet>, b: nat)
    requires Mergeable(packets) && packets[0].segments != [] && b < FIRST_CURSOR && b < |packets[0].segments[0]|
    ensures Hold(packets)[0][b] == packets[0].segments[0][b]
  {
    HoldKeepsOthers(packets, 0, b);
  }

  lemma SameAzimuth(headers: seq<Byte>, a: Frame, b: Frame)
    requires |headers| <= ALL_HEADERS && a != [] && b != [] && |a[0]| == |b[0]| >= HEADER_LENGTH - |headers|
    requires a[0][54 - |headers|] == b[0][54 - |headers|] && a[0][55 - |headers|] == b[0][55 - |headers|]
    ensures ScanIndex(headers, a) == ScanIndex(headers, b)
  {
    BehindHeaders(headers, a, 54);
    BehindHeaders(headers, b, 54);
  }

  lemma AzimuthOffset(h: nat)
    requires h <= 22 && h % 2 == 0
    ensures FIRST_CURSOR + 2 * ((22 - h) / 2) == 54 - h
  {
  }

  /** A line index inside the window comes from a pair of the merge. */
  lemma IndexIsPair(headers: seq<Byte>, frame: Frame)
    requires SendHeaders(headers) && 54 - |headers| >= FIRST_CURSOR
    requires frame != [] && |headers| + |frame[0]| >= HEADER_LENGTH
    ensures ScanIndex(headers, frame) == PairValue(frame, 0, (22 - |headers|) / 2) / ANGULAR_STEP
  {
    AzimuthOffset(|headers|);
    BehindHeaders(headers, frame, 54);
  }

  lemma AzimuthPair(headers: seq<Byte>, packets: seq<Packet>, m: nat)
    requires Aligned(headers, packets) && 54 - |headers| >= FIRST_CURSOR && m < |packets|
    ensures
      var j := (22 - |headers|) / 2;
      && Contributes(packets, m, 0, j)
      && packets[m].segments != [] && FIRST_CURSOR + 2 * j + 2 <= |packets[m].segments[0]|
      && |headers| + |packets[m].segments[0]| >= HEADER_LENGTH
      && ScanIndex(headers, packets[m].segments) == PairValue(packets[m].segments, 0, j) / ANGULAR_STEP
      && ScanIndex(headers, packets[m].segments) < LINES
  {
    if m > 0 { assert AlignedWith(headers, packets[0].segments, packets[m]); }
    IndexIsPair(headers, packets[m].segments);
  }

  lemma HeldAzimuth(headers: seq<Byte>, packets: seq<Packet>)
    requires Aligned(headers, packets) && 54 - |headers| >= FIRST_CURSOR
    ensures ScanIndex(headers, Hold(packets)) == PairValue(Hold(packets), 0, (22 - |headers|) / 2) / ANGULAR_STEP
  {
    IndexIsPair(headers, Hold(packets));
  }

  /** When the azimuth lies inside the window, the greatest one of the batch is kept... */
  lemma HeldIndexDominates(headers: seq<Byte>, packets: seq<Packet>, m: nat)
    requires Aligned(headers, packets) && 54 - |headers| >= FIRST_CURSOR && m < |packets|
    ensures ScanIndex(headers, packets[m].segments) <= ScanIndex(headers, Hold(packets))
  {
    AzimuthPair(headers, packets, m);
    HeldAzimuth(headers, packets);
    PeakDominates(packets, m, 0, (22 - |headers|) / 2);
  }

  /** ...and it is that of some packet. */
  lemma HeldIndexComesFrom(headers: seq<Byte>, packets: seq<Packet>) returns (m: nat)
    requires Aligned(headers, packets) && 54 - |headers| >= FIRST_CURSOR
    ensures m < |packets| && ScanIndex(headers, packets[m].segments) == ScanIndex(headers, Hold(packets)) < LINES
  {
    HeldAzimuth(headers, packets);
    m := PeakHolder(packets, 0, (22 - |headers|) / 2);
    AzimuthPair(headers, packets, m);
  }

  /** Which line index the gain task finds: the greatest of the batch, or that of its first packet. */
  ghost predicate HeldIndexIs(headers: seq<Byte>, packets: seq<Packet>, index: nat)
    requires packets != []
  {
    if 54 - |headers| >= FIRST_CURSOR then
      && (forall m :: 0 <= m < |packets| ==> ScanIndex(headers, packets[m].segments) <= index)
      && (exists m :: 0 <= m < |packets| && ScanIndex(headers, packets[m].segments) == index)
    else ScanIndex(headers, packets[0].segments) == index
  }

  /** The line index of the held frame after the send, for headers of any even length up to 42. */
  lemma HeldIndex(headers: seq<Byte>, packets: seq<Packet>)
    requires Aligned(headers, packets)
    ensures HeldIndexIs(headers, packets, ScanIndex(headers, Hold(packets)))
    ensures ScanIndex(headers, Hold(packets)) < LINES
  {
    if 54 - |headers| >= FIRST_CURSOR {
      forall m | 0 <= m < |packets|
        ensures ScanIndex(headers, packets[m].segments) <= ScanIndex(headers, Hold(packets))
      {
        HeldIndexDominates(headers, packets, m);
      }
      var m := HeldIndexComesFrom(headers, packets);
    } else {
      HeldIndexOfFirst(headers, packets);
    }
  }

  /** After an unfragmented send the fields are bytes 12 and 28 of the first packet, whatever the others contain. */
  lemma AfterFullSend(headers: seq<Byte>, packets: seq<Packet>)
    requires Aligned(headers, packets) && |headers| == 42
    ensures ScanIndex(headers, Hold(packets)) == BigEndian(packets[0].segments[0], 12) / 54
    ensures
      var first := packets[0].segments[0];
      var high: int, middle: int, low: int := first[28], first[29], first[30];
      ScanCount(headers, Hold(packets)) == (high * 0x1_0000 + middle * 0x100 + low) % 0x1_0000
  {
    var first := packets[0].segments;
    assert ScanIndex(headers, Hold(packets)) == ScanIndex(headers, first) by { HeldIndexOfFirst(headers, packets); }
    assert ScanCount(headers, Hold(packets)) == ScanCount(headers, first) by { HeldCount(headers, packets); }
    FieldsBehindHeaders(headers, first);
  }

  lemma FieldsBehindHeaders(headers: seq<Byte>, frame: Frame)
    requires |headers| == 42 && frame != [] && |frame[0]| >= 32
    ensures ScanIndex(headers, frame) == BigEndian(frame[0], 12) / 54
    ensures
      var high: int, middle: int, low: int := frame[0][28], frame[0][29], frame[0][30];
      ScanCount(headers, frame) == (high * 0x1_0000 + middle * 0x100 + low) % 0x1_0000
  {
    BehindHeaders(headers, frame, 54);
    var sent := headers + frame[0];
    assert sent[70] == frame[0][28] && sent[71] == frame[0][29] && sent[72] == frame[0][30];
  }

  /** The gain task can process the held frame of every aligned batch after it was sent. */
  lemma HeldProcessable(headers: seq<Byte>, packets: seq<Packet>)
    requires Aligned(headers, packets)
    ensures Processable(WithHeaders(headers, Hold(packets)))
    ensures SampleCount(WithHeaders(headers, Hold(packets))[0]) == ScanCount(headers, packets[0].segments)
    ensures LineIndex(WithHeaders(headers, Hold(packets))[0]) == ScanIndex(headers, Hold(packets))
  {
    var held, first := WithHeaders(headers, Hold(packets)), WithHeaders(headers, packets[0].segments);
    var n := ScanCount(headers, packets[0].segments);
    HeldCount(headers, packets);
    HeldIndex(headers, packets);
    assert LongEnough(held, n) by { SameShapeLong(held, first, n); }
    LongIsReadable(held, n, 0);
  }

  lemma SameShapeLong(a: Frame, b: Frame, n: nat)
    requires SameShape(a, b) && LongEnough(b, n)
    ensures LongEnough(a, n)
  {
  }

  // ----- Samples of the held frame

  /** Sample `j` of segment `k`, as scanned after the send; -1 when the segment does not hold it. */
  function ScanSample(headers: seq<Byte>, frame: Frame, k: nat, j: nat): int {
    var sent := WithHeaders(headers, frame);
    if k < |sent| && SampleStart(k) + 2 * j + 2 <= |sent[k]| then SampleAt(sent, k, j) else -1
  }

  /** Scanned samples are pairs of the merge. */
  lemma FirstSampleIsPair(headers: seq<Byte>, frame: Frame, j: nat)
    requires SendHeaders(headers) && frame != []
    requires Cursor(0) + 2 * (FirstSamplePair(|headers|, 0) + j) + 2 <= |frame[0]|
    ensures ScanSample(headers, frame, 0, j) == PairValue(frame, 0, FirstSamplePair(|headers|, 0) + j)
  {
    PairOffset(|headers|, j);
    ScanSampleBytes(headers, frame, j);
    BehindHeaders(headers, frame, HEADER_LENGTH + 2 * j);
  }

  lemma PairOffset(h: nat, j: nat)
    requires h <= ALL_HEADERS && h % 2 == 0
    ensures FIRST_CURSOR + 2 * (FirstSamplePair(h, 0) + j) == HEADER_LENGTH + 2 * j - h
  {
  }

  lemma ScanSampleBytes(headers: seq<Byte>, frame: Frame, j: nat)
    requires frame != [] && HEADER_LENGTH + 2 * j + 2 <= |headers| + |frame[0]|
    ensures ScanSample(headers, frame, 0, j) == BigEndian(headers + frame[0], HEADER_LENGTH + 2 * j)
  {
    assert WithHeaders(headers, frame)[0] == headers + frame[0];
  }

  lemma OtherSampleIsPair(headers: seq<Byte>, frame: Frame, k: nat, j: nat)
    requires SendHeaders(headers) && 0 < k < |frame| && 2 * (FirstSamplePair(|headers|, k) + j) + 2 <= |frame[k]|
    ensures ScanSample(headers, frame, k, j) == PairValue(frame, k, FirstSamplePair(|headers|, k) + j)
  {
    assert WithHeaders(headers, frame)[k] == frame[k];
  }

  lemma SampleIsPair(headers: seq<Byte>, frame: Frame, k: nat, j: nat)
    requires SendHeaders(headers) && k < |frame|
    requires Cursor(k) + 2 * (FirstSamplePair(|headers|, k) + j) + 2 <= |frame[k]|
    ensures ScanSample(headers, frame, k, j) == PairValue(frame, k, FirstSamplePair(|headers|, k) + j)
  {
    if k == 0 {
      FirstSampleIsPair(headers, frame, j);
    } else {
      OtherSampleIsPair(headers, frame, k, j);
    }
  }

  /** The scanned samples of packet `m` lie inside its windows. */
  lemma PacketPairInside(headers: seq<Byte>, packets: seq<Packet>, m: nat, k: nat, j: nat)
    requires Aligned(headers, packets) && m < |packets|
    requires k < |packets[0].segments| && j < ScanCount(headers, packets[0].segments)
    ensures
      var pair := FirstSamplePair(|headers|, k) + j;
      && |packets[m].segments| == |packets[0].segments|
      && Cursor(k) + 2 * pair + 2 <= |packets[m].segments[k]|
      && Contributes(packets, m, k, pair)
  {
    var first, n: nat := packets[0].segments, ScanCount(headers, packets[0].segments);
    if m == 0 {
      assert SampleStart(k) + 2 * n <= |WithHeaders(headers, first)[k]|;
    } else {
      assert AlignedWith(headers, first, packets[m]) && Fits(first, packets[m]);
      assert FirstSamplePair(|headers|, k) + n <= Pairs(packets[m].total, k);
      assert Cursor(k) + 2 * Pairs(packets[m].total, k) <= |packets[m].segments[k]|;
    }
  }

  lemma HeldScanSample(headers: seq<Byte>, packets: seq<Packet>, k: nat, j: nat)
    requires Aligned(headers, packets)
    requires k < |packets[0].segments| && j < ScanCount(headers, packets[0].segments)
    ensures
      var pair := FirstSamplePair(|headers|, k) + j;
      && Cursor(k) + 2 * pair + 2 <= |packets[0].segments[k]|
      && ScanSample(headers, Hold(packets), k, j) == PairValue(Hold(packets), k, pair)
  {
    PacketPairInside(headers, packets, 0, k, j);
    SampleIsPair(headers, Hold(packets), k, j);
  }

  lemma PacketScanSample(headers: seq<Byte>, packets: seq<Packet>, m: nat, k: nat, j: nat)
    requires Aligned(headers, packets) && m < |packets|
    requires k < |packets[0].segments| && j < ScanCount(headers, packets[0].segments)
    ensures
      var pair := FirstSamplePair(|headers|, k) + j;
      && k < |packets[m].segments| && Cursor(k) + 2 * pair + 2 <= |packets[m].segments[k]|
      && Contributes(packets, m, k, pair)
      && ScanSample(headers, packets[m].segments, k, j) == PairValue(packets[m].segments, k, pair)
  {
    PacketPairInside(headers, packets, m, k, j);
    SampleIsPair(headers, packets[m].segments, k, j);
  }

  /** Each scanned sample of the held frame comes from some packet of the batch. */
  lemma HeldSampleComesFrom(headers: seq<Byte>, packets: seq<Packet>, k: nat, j: nat) returns (m: nat)
    requires Aligned(headers, packets)
    requires k < |packets[0].segments| && j < ScanCount(headers, packets[0].segments)
    ensures m < |packets|
    ensures ScanSample(headers, packets[m].segments, k, j) == ScanSample(headers, Hold(packets), k, j)
  {
    HeldScanSample(headers, packets, k, j);
    m := PeakHolder(packets, k, FirstSamplePair(|headers|, k) + j);
    PacketScanSample(headers, packets, m, k, j);
  }

  /** No scanned sample of any packet exceeds that of the held frame. */
  lemma HeldSampleDominates(headers: seq<Byte>, packets: seq<Packet>, m: nat, k: nat, j: nat)
    requires Aligned(headers, packets) && m < |packets|
    requires k < |packets[0].segments| && j < ScanCount(headers, packets[0].segments)
    ensures ScanSample(headers, packets[m].segments, k, j) <= ScanSample(headers, Hold(packets), k, j)
  {
    HeldScanSample(headers, packets, k, j);
    PacketScanSample(headers, packets, m, k, j);
    PeakDominates(packets, m, k, FirstSamplePair(|headers|, k) + j);
  }

  /** Scanned like the held frame, packet `m` has a saturated sample. */
  ghost predicate SaturatedPacket(headers: seq<Byte>, packets: seq<Packet>, m: nat)
    requires m < |packets|
  {
    Saturated(SamplesFrom(WithHeaders(headers, packets[m].segments), ScanCount(headers, packets[0].segments), 0))
  }

  lemma HeldSaturatedOnlyIf(headers: seq<Byte>, packets: seq<Packet>) returns (m: nat)
    requires Aligned(headers, packets)
    requires Saturated(SamplesFrom(WithHeaders(headers, Hold(packets)), ScanCount(headers, packets[0].segments), 0))
    ensures m < |packets| && SaturatedPacket(headers, packets, m)
  {
    var n := ScanCount(headers, packets[0].segments);
    var k, j := SaturatedPosition(WithHeaders(headers, Hold(packets)), n, 0);
    m := HeldSampleComesFrom(headers, packets, k, j);
    PositionSaturates(WithHeaders(headers, packets[m].segments), n, 0, k, j);
  }

  lemma HeldSaturatedIf(headers: seq<Byte>, packets: seq<Packet>, m: nat)
    requires Aligned(headers, packets) && m < |packets| && SaturatedPacket(headers, packets, m)
    ensures Saturated(SamplesFrom(WithHeaders(headers, Hold(packets)), ScanCount(headers, packets[0].segments), 0))
  {
    var n := ScanCount(headers, packets[0].segments);
    PacketPairInside(headers, packets, m, 0, 0);
    var k, j := SaturatedPosition(WithHeaders(headers, packets[m].segments), n, 0);
    HeldSampleDominates(headers, packets, m, k, j);
    PositionSaturates(WithHeaders(headers, Hold(packets)), n, 0, k, j);
  }

  /**
    Composition: after the send the gain scan of the held frame is saturated exactly when that of some
    packet of the batch is; its line index is that of the first packet or the greatest of the batch,
    depending on whether the headers move the azimuth out of the merge window.
  */
  lemma HeldLine(headers: seq<Byte>, packets: seq<Packet>)
    requires Aligned(headers, packets)
    ensures Processable(WithHeaders(headers, Hold(packets)))
    ensures
      var line := LineOf(WithHeaders(headers, Hold(packets)));
      && (line.saturated <==> exists m :: 0 <= m < |packets| && SaturatedPacket(headers, packets, m))
      && HeldIndexIs(headers, packets, line.index)
  {
    HeldProcessable(headers, packets);
    HeldIndex(headers, packets);
    if LineOf(WithHeaders(headers, Hold(packets))).saturated {
      var m := HeldSaturatedOnlyIf(headers, packets);
    }
    if m :| 0 <= m < |packets| && SaturatedPacket(headers, packets, m) {
      HeldSaturatedIf(headers, packets, m);
    }
  }
}
