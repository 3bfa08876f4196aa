/**
  Reading one radar line out of a frame: the fields of its header, its samples, and the scan for a
  saturated sample. A frame is the chain of its segments.
*/
module LineScan {
  import opened MachineTypes
  import opened GainRing

  const SATURATION: Word := 0xEC54
  const ANGULAR_STEP := 0x36
  const HEADER_LENGTH := 74

  type Frame = seq<seq<Byte>>

  /**
    Sending a frame puts headers in front of its first segment and leaves the payload pointer at their
    start, so that whoever reads the buffer afterwards sees them as part of it.
  */
  function WithHeaders(headers: seq<Byte>, frame: Frame): (r: Frame)
    ensures |r| == |frame|
  {
    if frame == [] then [] else [headers + frame[0]] + frame[1..]
  }

  function LineIndex(first: seq<Byte>): nat
    requires |first| >= HEADER_LENGTH
  {
    BigEndian(first, 54) / ANGULAR_STEP
  }

  /** The 24-bit sample count, kept in 16 bits. */
  function SampleCount(first: seq<Byte>): Word
    requires |first| >= HEADER_LENGTH
  {
    var high: int, middle: int, low: int := first[70], first[71], first[72];
    (high * 0x1_0000 + middle * 0x100 + low) % 0x1_0000
  }

  /** Samples start behind the header in the first segment, and at once in all others. */
  function SampleStart(k: nat): nat { if k == 0 then HEADER_LENGTH else 0 }

  /** How many of `n` samples lie inside the segment. */
  function Available(segment: seq<Byte>, start: nat, n: nat): (m: nat)
    ensures m <= n && (m > 0 ==> start + 2 * m <= |segment|)
    ensures m < n ==> |segment| < start + 2 * m + 2
  {
    if start + 2 * n <= |segment| then n
    else if start <= |segment| then (|segment| - start) / 2
    else 0
  }

  function SegmentSamples(segment: seq<Byte>, start: nat, n: nat): (samples: seq<Word>)
    ensures |samples| == Available(segment, start, n)
  {
    seq(Available(segment, start, n), j requires 0 <= j < Available(segment, start, n) =>
      BigEndian(segment, start + 2 * j))
  }

  /** The samples of segment `k` and all behind it, in scan order: `n` from each segment that holds so many. */
  function SamplesFrom(frame: Frame, n: nat, k: nat): seq<Word>
    requires k <= |frame|
    decreases |frame| - k
  {
    if k == |frame| then []
    else SegmentSamples(frame[k], SampleStart(k), n) + SamplesFrom(frame, n, k + 1)
  }

  /** The scan from segment `k` on stays inside the segments: those up to the first saturated sample are long enough. */
  ghost predicate Readable(frame: Frame, n: nat, k: nat)
    requires k <= |frame|
    decreases |frame| - k
  {
    k < |frame| ==>
      var here := SegmentSamples(frame[k], SampleStart(k), n);
      Saturated(here) || (|here| == n && Readable(frame, n, k + 1))
  }

  predicate Saturated(samples: seq<Word>) {
    exists i :: 0 <= i < |samples| && samples[i] > SATURATION
  }

  /** What the scan accumulates: it reads samples up to and including the first saturated one. */
  function ScanTotal(samples: seq<Word>): nat {
    if samples == [] then 0
    else samples[0] + if samples[0] > SATURATION then 0 else ScanTotal(samples[1..])
  }

  lemma SaturatedConcat(a: seq<Word>, b: seq<Word>)
    ensures Saturated(a + b) <==> Saturated(a) || Saturated(b)
  {
    if Saturated(a) {
      var i :| 0 <= i < |a| && a[i] > SATURATION;
      assert (a + b)[i] > SATURATION;
    } else if Saturated(b) {
      var i :| 0 <= i < |b| && b[i] > SATURATION;
      assert (a + b)[|a| + i] > SATURATION;
    }
  }

  /** A scan that reaches the end of one part goes on with the next. */
  lemma {:induction false} ScanConcat(a: seq<Word>, b: seq<Word>)
    ensures ScanTotal(a + b) == ScanTotal(a) + if Saturated(a) then 0 else ScanTotal(b)
  {
    if a == [] {
      assert a + b == b;
    } else {
      assert (a + b)[1..] == a[1..] + b;
      assert a == [a[0]] + a[1..];
      SaturatedConcat([a[0]], a[1..]);
      assert Saturated([a[0]]) <==> a[0] > SATURATION by { assert [a[0]][0] == a[0]; }
      ScanConcat(a[1..], b);
    }
  }

  function Sum(values: seq<int>): int {
    if values == [] then 0 else Sum(values[..|values| - 1]) + values[|values| - 1]
  }

  lemma {:induction false} SumBounds(values: seq<int>, most: nat)
    requires forall v <- values :: 0 <= v <= most
    ensures 0 <= Sum(values) <= most * |values|
  {
    if values != [] {
      var before := values[..|values| - 1];
      forall v <- before ensures 0 <= v <= most { assert v in values; }
      SumBounds(before, most);
      assert values[|values| - 1] in values;
      assert most * |values| == most * |before| + most;
    }
  }

  /** A frame that the gain task can process. */
  ghost predicate Processable(frame: Frame) {
    && frame != []
    && |frame[0]| >= HEADER_LENGTH
    && LineIndex(frame[0]) < LINES
    && SampleCount(frame[0]) > 0
    && Readable(frame, SampleCount(frame[0]), 0)
  }

  function SamplesOf(frame: Frame): seq<Word>
    requires Processable(frame)
  {
    SamplesFrom(frame, SampleCount(frame[0]), 0)
  }

  /** The radar line that a frame carries. */
  function LineOf(frame: Frame): Line
    requires Processable(frame)
  {
    Line(LineIndex(frame[0]), Saturated(SamplesOf(frame)))
  }

  /** The 16-bit azimuth leaves the 1200-cell table exactly from 64800 on. */
  lemma AzimuthInTable(first: seq<Byte>)
    requires |first| >= HEADER_LENGTH
    ensures LineIndex(first) < LINES <==> BigEndian(first, 54) < 64800
    ensures LineIndex(first) <= 1213
  {
  }

  // ----- When the scan stays inside the buffers

  ghost predicate SegmentSaturated(frame: Frame, n: nat, k: nat)
    requires k < |frame|
  {
    Saturated(SegmentSamples(frame[k], SampleStart(k), n))
  }

  /** Segment `k` holds all `n` samples, or the scan has ended in it or before it. */
  ghost predicate HoldsOrEnded(frame: Frame, n: nat, from: nat, k: nat)
    requires k < |frame|
  {
    || Available(frame[k], SampleStart(k), n) == n
    || exists j :: from <= j <= k && SegmentSaturated(frame, n, j)
  }

  lemma HoldsLater(frame: Frame, n: nat, from: nat, k: nat)
    requires from < k < |frame| && !SegmentSaturated(frame, n, from)
    ensures HoldsOrEnded(frame, n, from, k) <==> HoldsOrEnded(frame, n, from + 1, k)
  {
  }

  /** Every segment is scanned for the whole count, so each one up to the first saturated sample must hold it. */
  lemma {:induction false} ReadableIff(frame: Frame, n: nat, from: nat)
    requires from <= |frame|
    ensures Readable(frame, n, from) <==> forall k :: from <= k < |frame| ==> HoldsOrEnded(frame, n, from, k)
    decreases |frame| - from
  {
    if from < |frame| {
      ReadableIff(frame, n, from + 1);
      if SegmentSaturated(frame, n, from) {
        assert forall k :: from <= k < |frame| ==> HoldsOrEnded(frame, n, from, k);
      } else {
        assert HoldsOrEnded(frame, n, from, from) <==> Available(frame[from], SampleStart(from), n) == n;
        forall k | from < k < |frame|
          ensures HoldsOrEnded(frame, n, from, k) <==> HoldsOrEnded(frame, n, from + 1, k)
        {
          HoldsLater(frame, n, from, k);
        }
        if forall k :: from <= k < |frame| ==> HoldsOrEnded(frame, n, from, k) {
          var later := from + 1;
          forall k | later <= k < |frame| ensures HoldsOrEnded(frame, n, later, k) {
            assert HoldsOrEnded(frame, n, from, k);
          }
          assert HoldsOrEnded(frame, n, from, from);
        }
      }
    }
  }

  /** Without a saturated sample no segment is saturated. */
  lemma {:induction false} NoneSaturated(frame: Frame, n: nat, from: nat, k: nat)
    requires from <= k < |frame| && !Saturated(SamplesFrom(frame, n, from))
    ensures !SegmentSaturated(frame, n, k)
    decreases k - from
  {
    SaturatedConcat(SegmentSamples(frame[from], SampleStart(from), n), SamplesFrom(frame, n, from + 1));
    if from < k {
      NoneSaturated(frame, n, from + 1, k);
    }
  }

  ghost predicate AllHold(frame: Frame, n: nat) {
    forall k :: 0 <= k < |frame| ==> SampleStart(k) + 2 * n <= |frame[k]|
  }

  lemma SentLengths(headers: seq<Byte>, frame: Frame, n: nat)
    requires frame != []
    ensures AllHold(WithHeaders(headers, frame), n)
      <==> && HEADER_LENGTH + 2 * n <= |headers| + |frame[0]|
           && forall k :: 1 <= k < |frame| ==> 2 * n <= |frame[k]|
  {
    var sent := WithHeaders(headers, frame);
    assert |sent[0]| == |headers| + |frame[0]| && forall k :: 1 <= k < |frame| ==> sent[k] == frame[k];
    if AllHold(sent, n) {
      assert SampleStart(0) + 2 * n <= |sent[0]|;
      forall k | 1 <= k < |frame| ensures 2 * n <= |frame[k]| {
        assert SampleStart(k) + 2 * n <= |sent[k]|;
      }
    }
  }

  lemma HoldWithoutSaturation(sent: Frame, n: nat)
    requires n > 0 && !Saturated(SamplesFrom(sent, n, 0))
    ensures AllHold(sent, n) <==> forall k :: 0 <= k < |sent| ==> HoldsOrEnded(sent, n, 0, k)
  {
    forall k | 0 <= k < |sent|
      ensures HoldsOrEnded(sent, n, 0, k) <==> SampleStart(k) + 2 * n <= |sent[k]|
    {
      forall j | 0 <= j <= k ensures !SegmentSaturated(sent, n, j) {
        NoneSaturated(sent, n, 0, j);
      }
    }
  }

  /**
    For a frame without a saturated sample, sent behind `headers`: the scan for `n` samples stays inside
    the buffers exactly when the first one holds `74 + 2 * n` bytes from the start of the headers and every
    other one `2 * n`.
  */
  lemma ScanInsideIff(headers: seq<Byte>, frame: Frame, n: nat)
    requires frame != [] && n > 0 && !Saturated(SamplesFrom(WithHeaders(headers, frame), n, 0))
    ensures Readable(WithHeaders(headers, frame), n, 0)
      <==> && HEADER_LENGTH + 2 * n <= |headers| + |frame[0]|
           && forall k :: 1 <= k < |frame| ==> 2 * n <= |frame[k]|
  {
    var sent := WithHeaders(headers, frame);
    ReadableIff(sent, n, 0);
    assert AllHold(sent, n) <==> forall k :: 0 <= k < |sent| ==> HoldsOrEnded(sent, n, 0, k) by {
      HoldWithoutSaturation(sent, n);
    }
    SentLengths(headers, frame, n);
  }

  lemma {:induction false} ZeroSamples(frame: Frame, n: nat, from: nat)
    requires from <= |frame| && forall k, p :: 0 <= k < |frame| && 0 <= p < |frame[k]| ==> frame[k][p] == 0
    ensures !Saturated(SamplesFrom(frame, n, from))
    decreases |frame| - from
  {
    if from < |frame| {
      ZeroSamples(frame, n, from + 1);
      SaturatedConcat(SegmentSamples(frame[from], SampleStart(from), n), SamplesFrom(frame, n, from + 1));
    }
  }

  /** Both segments of a packet with 2952 bytes are scanned for all its 1460 samples, beyond their 1700-byte buffers. */
  lemma FragmentedScanLeaves()
    ensures
      var headers, frame := seq(28, _ => 0 as Byte), seq(2, _ => seq(1700, _ => 0 as Byte));
      !Readable(WithHeaders(headers, frame), (2952 - 32) / 2, 0)
  {
    var headers, frame := seq(28, _ => 0 as Byte), seq(2, _ => seq(1700, _ => 0 as Byte));
    var sent := WithHeaders(headers, frame);
    assert sent[1] == frame[1];
    ZeroSamples(sent, 1460, 0);
    ScanInsideIff(headers, frame, 1460);
  }

  // ----- The scanned samples, in bytes

  /** Sample `j` of segment `k`: the first segment has 74 bytes in front of its samples. */
  function SampleInBytes(frame: Frame, k: nat, j: nat): int
    requires k < |frame| && (if k == 0 then 74 else 0) + 2 * j + 2 <= |frame[k]|
  {
    var at := (if k == 0 then 74 else 0) + 2 * j;
    var high: int, low: int := frame[k][at], frame[k][at + 1];
    high * 256 + low
  }

  /** Element `p` of the scanned samples is sample `j` of segment `k`. */
  ghost predicate SampleIs(frame: Frame, n: nat, from: nat, p: int, k: nat, j: nat)
    requires from <= |frame| && k < |frame|
  {
    && (if k == 0 then 74 else 0) + 2 * j + 2 <= |frame[k]|
    && 0 <= p < |SamplesFrom(frame, n, from)|
    && SamplesFrom(frame, n, from)[p] == SampleInBytes(frame, k, j)
  }

  /**
    As long as no earlier segment ends the scan, the samples of segment `k` are found behind the `n`
    samples of each earlier one.
  */
  lemma {:induction false} SamplesAt(frame: Frame, n: nat, from: nat, k: nat, j: nat)
    requires from <= k < |frame| && Readable(frame, n, from)
    requires forall i :: from <= i < k ==> !SegmentSaturated(frame, n, i)
    requires j < n && (if k == 0 then 74 else 0) + 2 * j + 2 <= |frame[k]|
    ensures SampleIs(frame, n, from, (k - from) * n + j, k, j)
    decreases k - from
  {
    if k == from {
      FirstSegment(frame, n, k, j);
      OneSegmentLess(0, n, j);
    } else {
      assert !SegmentSaturated(frame, n, from);
      SamplesAt(frame, n, from + 1, k, j);
      LaterSegment(frame, n, from, (k - from - 1) * n + j, k, j);
      OneSegmentLess(k - from, n, j);
    }
  }

  lemma FirstSegment(frame: Frame, n: nat, k: nat, j: nat)
    requires k < |frame| && j < n && (if k == 0 then 74 else 0) + 2 * j + 2 <= |frame[k]|
    ensures SampleIs(frame, n, k, j, k, j)
  {
    assert SegmentSamples(frame[k], SampleStart(k), n)[j] == SampleInBytes(frame, k, j);
  }

  lemma LaterSegment(frame: Frame, n: nat, from: nat, p: int, k: nat, j: nat)
    requires from < k < |frame| && SampleIs(frame, n, from + 1, p, k, j)
    requires |SegmentSamples(frame[from], SampleStart(from), n)| == n
    ensures SampleIs(frame, n, from, n + p, k, j)
  {
  }

  lemma OneSegmentLess(k: int, n: int, j: int)
    ensures k * n + j == n + ((k - 1) * n + j)
    ensures k == 0 ==> k * n + j == j
  {
  }

  lemma {:induction false} SamplesCounted(frame: Frame, n: nat, from: nat)
    requires from <= |frame| && Readable(frame, n, from) && !Saturated(SamplesFrom(frame, n, from))
    ensures |SamplesFrom(frame, n, from)| == (|frame| - from) * n
    decreases |frame| - from
  {
    OneSegmentLess(|frame| - from, n, 0);
    if from < |frame| {
      var here, rest := SegmentSamples(frame[from], SampleStart(from), n), SamplesFrom(frame, n, from + 1);
      SaturatedConcat(here, rest);
      SamplesCounted(frame, n, from + 1);
    }
  }

  /** Element `k * n + j` of all scanned samples is sample `j` of segment `k`. */
  ghost predicate InOrderOfBytes(frame: Frame, n: nat, k: nat, j: nat)
    requires k < |frame|
  {
    SampleIs(frame, n, 0, k * n + j, k, j)
  }

  /** The scanned samples of an unsaturated frame are all its samples, segment by segment. */
  lemma SamplesInBytes(frame: Frame, n: nat)
    requires n > 0 && Readable(frame, n, 0) && !Saturated(SamplesFrom(frame, n, 0))
    ensures |SamplesFrom(frame, n, 0)| == |frame| * n
    ensures forall k, j :: 0 <= k < |frame| && 0 <= j < n ==> InOrderOfBytes(frame, n, k, j)
  {
    SamplesCounted(frame, n, 0);
    forall k, j | 0 <= k < |frame| && 0 <= j < n ensures InOrderOfBytes(frame, n, k, j) {
      UnsaturatedSample(frame, n, k, j);
    }
  }

  lemma UnsaturatedSample(frame: Frame, n: nat, k: nat, j: nat)
    requires n > 0 && Readable(frame, n, 0) && !Saturated(SamplesFrom(frame, n, 0))
    requires k < |frame| && j < n
    ensures InOrderOfBytes(frame, n, k, j)
  {
    ReadableIff(frame, n, 0);
    HoldWithoutSaturation(frame, n);
    assert SampleStart(k) + 2 * n <= |frame[k]|;
    forall i | 0 <= i < k ensures !SegmentSaturated(frame, n, i) {
      NoneSaturated(frame, n, 0, i);
    }
    SamplesAt(frame, n, 0, k, j);
  }
}
