/**
  The peak-hold merge of the parse task: a packet is folded into the held frame, segment by
  segment, by an in-place maximum over big-endian 16-bit pairs.
*/
module PeakHold {
  import opened MachineTypes
  import opened LineScan

  const SEGMENT := 1480
  const FIRST_CURSOR := 32

  /**
    A received packet: its total length and its chain of segments. A segment is given as the bytes of its
    buffer from the payload pointer on; they may reach beyond the length of the segment.
  */
  datatype Packet = Packet(total: nat, segments: Frame)

  /** The length still unaccounted for when the walk reaches segment `k`. */
  function Remaining(total: nat, k: nat): nat {
    if k == 0 then total
    else
      var r := Remaining(total, k - 1);
      if r > SEGMENT then r - SEGMENT else r
  }

  /** How many bytes of segment `k` the merge walks over. */
  function Window(total: nat, k: nat): nat {
    var r := Remaining(total, k);
    if r > SEGMENT then SEGMENT else r % SEGMENT
  }

  /** The merge works on whole pairs: an odd window takes one byte more. */
  function Pairs(total: nat, k: nat): nat { (Window(total, k) + 1) / 2 }

  function Cursor(k: nat): nat { if k == 0 then FIRST_CURSOR else 0 }

  // ----- Which bytes of a packet the windows cover

  /** How many segments are taken as full ones: those in front of the last 1..1480 bytes. */
  function FullSegments(total: nat): nat { if total == 0 then 0 else (total - 1) / SEGMENT }

  lemma {:induction false} RemainingIs(total: nat, k: nat)
    ensures Remaining(total, k) == total - SEGMENT * (if k < FullSegments(total) then k else FullSegments(total))
  {
    if k > 0 {
      RemainingIs(total, k - 1);
    }
  }

  /** The windows in closed form: 1480 bytes in each full segment, then, in every other one, the rest modulo 1480. */
  lemma WindowIs(total: nat, k: nat)
    ensures Window(total, k) == if k < FullSegments(total) then SEGMENT else total % SEGMENT
  {
    RemainingIs(total, k);
  }

  predicate InWindow(total: nat, k: nat, p: nat) {
    Cursor(k) <= p < Cursor(k) + 2 * Pairs(total, k)
  }

  /** Every byte of segment `k`, which has `length` bytes, lies in its window; in the first one from byte 32 on. */
  ghost predicate SegmentMerged(length: nat, total: nat, k: nat) {
    forall p :: Cursor(k) <= p < length ==> InWindow(total, k, p)
  }

  ghost predicate WholePacketMerged(lengths: seq<nat>, total: nat) {
    forall k :: 0 <= k < |lengths| ==> SegmentMerged(lengths[k], total, k)
  }

  /** How far the window of segment `k` reaches. */
  function WindowEnd(total: nat, k: nat): nat {
    var window := if k < FullSegments(total) then SEGMENT else total % SEGMENT;
    Cursor(k) + (window + 1) / 2 * 2
  }

  lemma SegmentMergedIff(length: nat, total: nat, k: nat)
    ensures SegmentMerged(length, total, k) <==> length <= WindowEnd(total, k)
  {
    WindowIs(total, k);
    if length > WindowEnd(total, k) {
      assert Cursor(k) <= length - 1 < length && !InWindow(total, k, length - 1);
    }
  }

  /** For any segment lengths: every byte from 32 on is merged exactly when each segment ends within its window. */
  lemma WholePacketMergedIff(lengths: seq<nat>, total: nat)
    ensures WholePacketMerged(lengths, total)
      <==> forall k :: 0 <= k < |lengths| ==> lengths[k] <= WindowEnd(total, k)
  {
    forall k | 0 <= k < |lengths| ensures SegmentMerged(lengths[k], total, k) <==> lengths[k] <= WindowEnd(total, k) {
      SegmentMergedIff(lengths[k], total, k);
    }
  }

  /**
    The segments of a packet that arrived in fragments: 1480 bytes each, but the first lost the eight
    bytes of its UDP header; `middle` full ones lie between the first and the last.
  */
  function Reassembled(middle: nat, last: nat): (lengths: seq<nat>)
    ensures |lengths| == middle + 2
  {
    [SEGMENT - 8] + seq(middle, _ => SEGMENT) + [last]
  }

  /**
    A packet of one segment is merged whole; a reassembled one exactly when its last segment is shorter
    than eight bytes and, when there are segments in the middle, just one byte shorter.
  */
  lemma ReassembledMergedIff(total: nat, middle: nat, last: nat)
    requires 1 <= last <= SEGMENT
    ensures total < SEGMENT ==> WholePacketMerged([total], total)
    ensures WholePacketMerged(Reassembled(middle, last), SEGMENT - 8 + SEGMENT * middle + last)
      <==> last < 8 && (middle == 0 || last == 7)
  {
    WholePacketMergedIff([total], total);
    var lengths, whole := Reassembled(middle, last), SEGMENT - 8 + SEGMENT * middle + last;
    WholePacketMergedIff(lengths, whole);
    ReassembledWindows(middle, last);
    assert lengths[middle] == (if middle == 0 then SEGMENT - 8 else SEGMENT) && lengths[middle + 1] == last;
  }

  lemma ReassembledWindows(middle: nat, last: nat)
    requires 1 <= last <= SEGMENT
    ensures
      var total := SEGMENT - 8 + SEGMENT * middle + last;
      && FullSegments(total) == (if last <= 8 then middle else middle + 1)
      && total % SEGMENT == if last < 8 then SEGMENT - 8 + last else last - 8
  {
  }

  /** The last eight bytes of a 2952-byte packet, which arrives as 1472 and 1480 bytes, are not merged. */
  lemma TailNotMerged()
    ensures Reassembled(0, 1480) == [1472, 1480] && !WholePacketMerged([1472, 1480], 2952)
    ensures forall p :: 1472 <= p < 1480 ==> !InWindow(2952, 1, p)
  {
    assert Reassembled(0, 1480) == [1472, 1480];
    ReassembledMergedIff(0, 0, 1480);
    WindowIs(2952, 1);
  }

  /** The window of a packet of one segment begins at byte 32 but is as long as the packet, so it ends behind it. */
  lemma WindowPassesEnd(total: nat)
    requires 0 < total < SEGMENT
    ensures WindowEnd(total, 0) == total + 32 + total % 2
    ensures InWindow(total, 0, total + 31)
  {
    WindowIs(total, 0);
  }

  // ----- One segment

  /** The pair that byte `p` belongs to, when pairs start at `at`. */
  function PairStart(at: nat, p: nat): nat
    requires at <= p
  {
    at + (p - at) / 2 * 2
  }

  /** For each pair of the window the greater of the two pairs; every other byte from `a`. */
  function MergeBytes(a: seq<Byte>, b: seq<Byte>, at: nat, pairs: nat): (r: seq<Byte>)
    requires at + 2 * pairs <= |a| && at + 2 * pairs <= |b|
    ensures |r| == |a|
  {
    seq(|a|, p requires 0 <= p < |a| =>
      if at <= p < at + 2 * pairs && BigEndian(b, PairStart(at, p)) > BigEndian(a, PairStart(at, p)) then b[p]
      else a[p])
  }

  lemma PairStarts(at: nat, pairs: nat)
    ensures PairStart(at, at + 2 * pairs) == PairStart(at, at + 2 * pairs + 1) == at + 2 * pairs
  {
  }

  lemma PairIsMaximum(a: seq<Byte>, b: seq<Byte>, at: nat, pairs: nat, j: nat)
    requires at + 2 * pairs <= |a| && at + 2 * pairs <= |b| && j < pairs
    ensures BigEndian(MergeBytes(a, b, at, pairs), at + 2 * j)
         == Max(BigEndian(a, at + 2 * j), BigEndian(b, at + 2 * j))
  {
    var high, merged := at + 2 * j, MergeBytes(a, b, at, pairs);
    PairStarts(at, j);
    var greater := BigEndian(b, high) > BigEndian(a, high);
    assert merged[high] == if greater then b[high] else a[high];
    assert merged[high + 1] == if greater then b[high + 1] else a[high + 1];
  }

  /** What `MergeBytes` means: maxima of 16-bit values inside the window, nothing changed outside. */
  lemma MergeIsMaximum(a: seq<Byte>, b: seq<Byte>, at: nat, pairs: nat)
    requires at + 2 * pairs <= |a| && at + 2 * pairs <= |b|
    ensures
      var r := MergeBytes(a, b, at, pairs);
      && (forall j :: 0 <= j < pairs ==>
            BigEndian(r, at + 2 * j) == Max(BigEndian(a, at + 2 * j), BigEndian(b, at + 2 * j)))
      && (forall p :: 0 <= p < |a| && !(at <= p < at + 2 * pairs) ==> r[p] == a[p])
  {
    var r := MergeBytes(a, b, at, pairs);
    forall j | 0 <= j < pairs
      ensures BigEndian(r, at + 2 * j) == Max(BigEndian(a, at + 2 * j), BigEndian(b, at + 2 * j))
    {
      PairIsMaximum(a, b, at, pairs, j);
    }
  }

  /** `held` with the pair at `high` replaced by that of `incoming` when the latter is greater. */
  function MergedPair(held: seq<Byte>, incoming: seq<Byte>, high: nat): (r: seq<Byte>)
    requires high + 2 <= |held| && high + 2 <= |incoming|
    ensures |r| == |held|
  {
    if BigEndian(incoming, high) > BigEndian(held, high) then
      held[high := incoming[high]][high + 1 := incoming[high + 1]]
    else held
  }

  lemma MergeOnePair(a: seq<Byte>, b: seq<Byte>, at: nat, pairs: nat)
    requires at + 2 * pairs + 2 <= |a| && at + 2 * pairs + 2 <= |b|
    ensures MergedPair(MergeBytes(a, b, at, pairs), b, at + 2 * pairs) == MergeBytes(a, b, at, pairs + 1)
  {
    var high := at + 2 * pairs;
    var merged, after := MergedPair(MergeBytes(a, b, at, pairs), b, high), MergeBytes(a, b, at, pairs + 1);
    forall p | 0 <= p < |a| ensures merged[p] == after[p] {
      if high <= p < high + 2 {
        MergedByte(a, b, at, pairs, p);
      } else {
        OtherByte(a, b, at, pairs, p);
      }
    }
  }

  lemma MergedByte(a: seq<Byte>, b: seq<Byte>, at: nat, pairs: nat, p: nat)
    requires at + 2 * pairs + 2 <= |a| && at + 2 * pairs + 2 <= |b|
    requires p == at + 2 * pairs || p == at + 2 * pairs + 1
    ensures MergedPair(MergeBytes(a, b, at, pairs), b, at + 2 * pairs)[p] == MergeBytes(a, b, at, pairs + 1)[p]
  {
    PairStarts(at, pairs);
    assert BigEndian(MergeBytes(a, b, at, pairs), at + 2 * pairs) == BigEndian(a, at + 2 * pairs);
  }

  lemma OtherByte(a: seq<Byte>, b: seq<Byte>, at: nat, pairs: nat, p: nat)
    requires at + 2 * pairs + 2 <= |a| && at + 2 * pairs + 2 <= |b|
    requires p < |a| && !(at + 2 * pairs <= p < at + 2 * pairs + 2)
    ensures MergedPair(MergeBytes(a, b, at, pairs), b, at + 2 * pairs)[p] == MergeBytes(a, b, at, pairs + 1)[p]
  {
    assert MergeBytes(a, b, at, pairs)[p] == MergeBytes(a, b, at, pairs + 1)[p];
  }

  /** Compare high bytes, then low bytes; copy both bytes of a greater pair. */
  method MergePair(held: array<Byte>, incoming: array<Byte>, high: nat)
    requires held != incoming && high + 2 <= held.Length && high + 2 <= incoming.Length
    modifies held
    ensures held[..] == MergedPair(old(held[..]), incoming[..], high)
  {
    if incoming[high] > held[high] || (incoming[high] == held[high] && incoming[high + 1] > held[high + 1]) {
      held[high] := incoming[high];
      held[high + 1] := incoming[high + 1];
    }
  }

  /** `a` after the first `pairs` turns of the innermost loop. */
  ghost function MergedUpTo(a: seq<Byte>, b: seq<Byte>, at: nat, pairs: nat): (r: seq<Byte>)
    requires at + 2 * pairs <= |a| && at + 2 * pairs <= |b|
    ensures |r| == |a|
  {
    if pairs == 0 then a else MergedPair(MergedUpTo(a, b, at, pairs - 1), b, at + 2 * (pairs - 1))
  }

  lemma {:induction false} MergedUpToIsMerge(a: seq<Byte>, b: seq<Byte>, at: nat, pairs: nat)
    requires at + 2 * pairs <= |a| && at + 2 * pairs <= |b|
    ensures MergedUpTo(a, b, at, pairs) == MergeBytes(a, b, at, pairs)
  {
    if pairs > 0 {
      MergedUpToIsMerge(a, b, at, pairs - 1);
      MergeOnePair(a, b, at, pairs - 1);
    }
  }

  /** The innermost loop, over the pairs of one segment's window. */
  method MergeSegment(held: array<Byte>, incoming: array<Byte>, at: nat, window: nat)
    requires held != incoming
    requires at + (window + 1) / 2 * 2 <= held.Length && at + (window + 1) / 2 * 2 <= incoming.Length
    modifies held
    ensures held[..] == MergeBytes(old(held[..]), incoming[..], at, (window + 1) / 2)
  {
    var i := 0;
    ghost var pairs: nat, all: nat := 0, (window + 1) / 2;
    ghost var a, b := held[..], incoming[..];
    while i < window
      invariant i == 2 * pairs && pairs <= all
      invariant incoming[..] == b
      invariant held[..] == MergedUpTo(a, b, at, pairs)
    {
      assert pairs < all;
      MergePair(held, incoming, at + i);
      i, pairs := i + 2, pairs + 1;
    }
    MergedUpToIsMerge(a, b, at, all);
  }

  // ----- One packet

  /** The held chain can take `packet`: it is as long, and both sides hold every pair of the windows. */
  ghost predicate Fits(held: Frame, packet: Packet) {
    && |packet.segments| <= |held|
    && forall k :: 0 <= k < |packet.segments| ==>
         var end := Cursor(k) + 2 * Pairs(packet.total, k);
         end <= |held[k]| && end <= |packet.segments[k]|
  }

  /** In closed form: both chains reach the ends of the windows. */
  lemma FitsIff(held: Frame, packet: Packet)
    ensures Fits(held, packet)
      <==> && |packet.segments| <= |held|
           && forall k :: 0 <= k < |packet.segments| ==>
                && WindowEnd(packet.total, k) <= |held[k]|
                && WindowEnd(packet.total, k) <= |packet.segments[k]|
  {
    forall k | 0 <= k < |packet.segments|
      ensures WindowEnd(packet.total, k) == Cursor(k) + 2 * Pairs(packet.total, k)
    {
      WindowIs(packet.total, k);
    }
  }

  function MergePacket(held: Frame, packet: Packet): (r: Frame)
    requires Fits(held, packet)
    ensures |r| == |held|
    ensures forall k :: 0 <= k < |held| ==> |r[k]| == |held[k]|
  {
    seq(|held|, k requires 0 <= k < |held| =>
      if k < |packet.segments| then
        MergeBytes(held[k], packet.segments[k], Cursor(k), Pairs(packet.total, k))
      else held[k])
  }

  /** The bytes of a chain of segment buffers. */
  ghost function Contents(chain: seq<array<Byte>>): (f: Frame)
    reads chain
    ensures |f| == |chain|
  {
    seq(|chain|, k requires 0 <= k < |chain| reads chain => chain[k][..])
  }

  ghost predicate Distinct(chain: seq<array<Byte>>) {
    forall j, k :: 0 <= j < k < |chain| ==> chain[j] != chain[k]
  }

  ghost predicate Disjoint(held: seq<array<Byte>>, incoming: seq<array<Byte>>) {
    forall j, k :: 0 <= j < |held| && 0 <= k < |incoming| ==> held[j] != incoming[k]
  }

  /** The held chain after the first `k` segments of `packet` were merged into it. */
  ghost function WalkedUpTo(held: Frame, packet: Packet, k: nat): (r: Frame)
    requires Fits(held, packet) && k <= |packet.segments|
    ensures |r| == |held|
  {
    seq(|held|, i requires 0 <= i < |held| =>
      if i < k then MergeBytes(held[i], packet.segments[i], Cursor(i), Pairs(packet.total, i)) else held[i])
  }

  lemma WalkEnds(held: Frame, packet: Packet)
    requires Fits(held, packet)
    ensures WalkedUpTo(held, packet, 0) == held
    ensures WalkedUpTo(held, packet, |packet.segments|) == MergePacket(held, packet)
  {
  }

  lemma WalkedOneMore(held: Frame, packet: Packet, k: nat)
    requires Fits(held, packet) && k < |packet.segments|
    ensures WalkedUpTo(held, packet, k + 1)
         == WalkedUpTo(held, packet, k)[k := MergeBytes(held[k], packet.segments[k], Cursor(k), Pairs(packet.total, k))]
  {
  }

  /** Merging segment `k`, whose bytes are still as they were, is the next turn of the walk. */
  lemma NextSegment(held: seq<array<Byte>>, incoming: seq<array<Byte>>, before: Frame, packet: Packet, k: nat)
    requires Fits(before, packet) && k < |packet.segments| && |held| == |before|
    requires Contents(incoming) == packet.segments && Contents(held) == WalkedUpTo(before, packet, k)
    ensures
      var end := Cursor(k) + 2 * Pairs(packet.total, k);
      && end <= held[k].Length && end <= incoming[k].Length
      && Contents(held)[k := MergeBytes(held[k][..], incoming[k][..], Cursor(k), Pairs(packet.total, k))]
         == WalkedUpTo(before, packet, k + 1)
  {
    assert Contents(held)[k] == held[k][..] && Contents(incoming)[k] == incoming[k][..];
    WalkedOneMore(before, packet, k);
  }

  /** One segment of the chains; all others keep their bytes. */
  method MergeAt(held: seq<array<Byte>>, incoming: seq<array<Byte>>, k: nat, at: nat, window: nat)
    requires Distinct(held) && Disjoint(held, incoming) && k < |held| && k < |incoming|
    requires at + (window + 1) / 2 * 2 <= held[k].Length && at + (window + 1) / 2 * 2 <= incoming[k].Length
    modifies held[k]
    ensures Contents(held) ==
      old(Contents(held))[k := MergeBytes(old(held[k][..]), incoming[k][..], at, (window + 1) / 2)]
    ensures Contents(incoming) == old(Contents(incoming))
  {
    MergeSegment(held[k], incoming[k], at, window);
    forall i | 0 <= i < |incoming| ensures incoming[i][..] == old(incoming[i][..]) {
      assert incoming[i] != held[k];
    }
    forall i | 0 <= i < |held| && i != k ensures held[i][..] == old(held[i][..]) {
      assert held[i] != held[k];
    }
  }

  /** The chains while they are walked: `before` and `packet` are what they held at first, `k` segments are done. */
  ghost predicate Walking(held: seq<array<Byte>>, incoming: seq<array<Byte>>, before: Frame, packet: Packet, k: nat)
    reads held, incoming
  {
    && Distinct(held) && Disjoint(held, incoming)
    && Fits(before, packet) && |held| == |before| && k <= |packet.segments|
    && Contents(incoming) == packet.segments && Contents(held) == WalkedUpTo(before, packet, k)
  }

  method NextWindow(left: nat, ghost total: nat, ghost k: nat) returns (rest: nat, window: nat)
    requires left == Remaining(total, k)
    ensures rest == Remaining(total, k + 1) && window == Window(total, k)
  {
    if left > SEGMENT {
      rest, window := left - SEGMENT, SEGMENT;
    } else {
      rest, window := left, left % SEGMENT;
    }
  }

  /** One turn of the outer loop: the length that is left gives the window of the segment. */
  method MergeNext(held: seq<array<Byte>>, incoming: seq<array<Byte>>, k: nat, left: nat, at: nat,
                   ghost before: Frame, ghost packet: Packet)
      returns (rest: nat)
    requires Walking(held, incoming, before, packet, k) && k < |incoming|
    requires left == Remaining(packet.total, k) && at == Cursor(k)
    modifies held[k]
    ensures Walking(held, incoming, before, packet, k + 1) && rest == Remaining(packet.total, k + 1)
  {
    var window;
    rest, window := NextWindow(left, packet.total, k);
    NextSegment(held, incoming, before, packet, k);
    MergeAt(held, incoming, k, at, window);
  }

  /** The outer loop: both chains are walked in step, and each segment gets its window. */
  method WalkChains(held: seq<array<Byte>>, incoming: seq<array<Byte>>, total: nat,
                    ghost before: Frame, ghost packet: Packet)
    requires Walking(held, incoming, before, packet, 0) && packet.total == total
    modifies held
    ensures Walking(held, incoming, before, packet, |incoming|)
  {
    var left, at, k := total, FIRST_CURSOR, 0;
    while k < |incoming|
      invariant 0 <= k <= |incoming| && left == Remaining(total, k) && at == Cursor(k)
      invariant Walking(held, incoming, before, packet, k)
    {
      left := MergeNext(held, incoming, k, left, at, before, packet);
      at, k := 0, k + 1;
    }
  }

  /** One packet is merged into the held chain; the incoming chain keeps its bytes. */
  method MergeChain(held: seq<array<Byte>>, incoming: seq<array<Byte>>, total: nat)
    requires Distinct(held) && Disjoint(held, incoming)
    requires Fits(Contents(held), Packet(total, Contents(incoming)))
    modifies held
    ensures Contents(held) == MergePacket(old(Contents(held)), Packet(total, old(Contents(incoming))))
    ensures Contents(incoming) == old(Contents(incoming))
  {
    ghost var before, packet := Contents(held), Packet(total, Contents(incoming));
    WalkEnds(before, packet);
    WalkChains(held, incoming, total, before, packet);
  }
}
