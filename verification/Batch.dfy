/** A whole batch: what the held frame contains after several packets were merged into the first. */
module Batch {
  import opened MachineTypes
  import opened LineScan
  import opened PeakHold

  ghost predicate Mergeable(packets: seq<Packet>) {
    packets != [] && forall m :: 1 <= m < |packets| ==> Fits(packets[0].segments, packets[m])
  }

  ghost predicate SameShape(a: Frame, b: Frame) {
    |a| == |b| && forall k :: 0 <= k < |a| ==> |a[k]| == |b[k]|
  }

  /** The held frame after the first packet was taken and the others were merged into it in turn. */
  ghost function Hold(packets: seq<Packet>): (r: Frame)
    requires Mergeable(packets)
    ensures SameShape(r, packets[0].segments)
  {
    if |packets| == 1 then packets[0].segments
    else MergePacket(Hold(packets[..|packets| - 1]), packets[|packets| - 1])
  }

  /** Merging one more packet is what `Hold` does with a batch that is one packet longer. */
  lemma HoldExtends(batch: seq<Packet>, packet: Packet)
    requires Mergeable(batch) && Fits(Hold(batch), packet)
    ensures Mergeable(batch + [packet]) && Hold(batch + [packet]) == MergePacket(Hold(batch), packet)
  {
    var longer := batch + [packet];
    assert longer[..|longer| - 1] == batch;
    assert Fits(batch[0].segments, packet);
    forall m | 1 <= m < |longer| ensures Fits(longer[0].segments, longer[m]) {
      if m < |batch| { assert longer[m] == batch[m]; }
    }
  }

  /** The 16-bit value of pair `j` of segment `k`, counted from where the merge starts. */
  function PairValue(frame: Frame, k: nat, j: nat): Word
    requires k < |frame| && Cursor(k) + 2 * j + 2 <= |frame[k]|
  {
    BigEndian(frame[k], Cursor(k) + 2 * j)
  }

  predicate Covers(packet: Packet, k: nat, j: nat) {
    k < |packet.segments| && j < Pairs(packet.total, k)
  }

  lemma MergeValue(held: Frame, packet: Packet, k: nat, j: nat)
    requires Fits(held, packet) && k < |held| && Cursor(k) + 2 * j + 2 <= |held[k]|
    ensures PairValue(MergePacket(held, packet), k, j)
         == if Covers(packet, k, j) then Max(PairValue(held, k, j), PairValue(packet.segments, k, j))
            else PairValue(held, k, j)
  {
    if k < |packet.segments| {
      var at, pairs := Cursor(k), Pairs(packet.total, k);
      MergeIsMaximum(held[k], packet.segments[k], at, pairs);
      assert MergePacket(held, packet)[k] == MergeBytes(held[k], packet.segments[k], at, pairs);
    }
  }

  /** Packet `m` has a say in pair `j` of segment `k`: the first packet always, others inside their window. */
  predicate Contributes(packets: seq<Packet>, m: nat, k: nat, j: nat)
    requires m < |packets|
  {
    m == 0 || Covers(packets[m], k, j)
  }

  /** `w` is the maximum of pair `j` of segment `k` over all packets that contribute to it. */
  ghost predicate IsPeak(packets: seq<Packet>, k: nat, j: nat, w: int)
    requires Mergeable(packets)
    requires k < |packets[0].segments| && Cursor(k) + 2 * j + 2 <= |packets[0].segments[k]|
  {
    && (forall m :: 0 <= m < |packets| && Contributes(packets, m, k, j) ==> PairValue(packets[m].segments, k, j) <= w)
    && (exists m :: 0 <= m < |packets| && Contributes(packets, m, k, j) && PairValue(packets[m].segments, k, j) == w)
  }

  /** Peak-hold correctness: every pair of the held frame is the maximum over the batch. */
  lemma {:induction false} HoldIsPeak(packets: seq<Packet>, k: nat, j: nat)
    requires Mergeable(packets)
    requires k < |packets[0].segments| && Cursor(k) + 2 * j + 2 <= |packets[0].segments[k]|
    ensures IsPeak(packets, k, j, PairValue(Hold(packets), k, j))
  {
    var last := |packets| - 1;
    if last == 0 {
      assert Contributes(packets, 0, k, j);
    } else {
      HoldIsPeak(packets[..last], k, j);
      MergeValue(Hold(packets[..last]), packets[last], k, j);
      PeakExtends(packets, k, j, PairValue(Hold(packets[..last]), k, j));
    }
  }

  lemma PeakExtends(packets: seq<Packet>, k: nat, j: nat, w: int)
    requires Mergeable(packets) && |packets| > 1
    requires k < |packets[0].segments| && Cursor(k) + 2 * j + 2 <= |packets[0].segments[k]|
    requires IsPeak(packets[..|packets| - 1], k, j, w)
    ensures
      var last := packets[|packets| - 1];
      IsPeak(packets, k, j, if Covers(last, k, j) then Max(w, PairValue(last.segments, k, j)) else w)
  {
    var last := |packets| - 1;
    var before := packets[..last];
    assert forall m :: 0 <= m < last ==> Contributes(packets, m, k, j) == Contributes(before, m, k, j);
    var m :| 0 <= m < last && Contributes(before, m, k, j) && PairValue(before[m].segments, k, j) == w;
    assert Contributes(packets, m, k, j);
    assert Contributes(packets, last, k, j) == Covers(packets[last], k, j);
  }

  /** A packet that holds the peak of one pair. */
  lemma PeakHolder(packets: seq<Packet>, k: nat, j: nat) returns (m: nat)
    requires Mergeable(packets)
    requires k < |packets[0].segments| && Cursor(k) + 2 * j + 2 <= |packets[0].segments[k]|
    ensures m < |packets| && Contributes(packets, m, k, j)
    ensures PairValue(packets[m].segments, k, j) == PairValue(Hold(packets), k, j)
  {
    HoldIsPeak(packets, k, j);
    m :| 0 <= m < |packets| && Contributes(packets, m, k, j)
         && PairValue(packets[m].segments, k, j) == PairValue(Hold(packets), k, j);
  }

  lemma PeakDominates(packets: seq<Packet>, m: nat, k: nat, j: nat)
    requires Mergeable(packets) && m < |packets|
    requires k < |packets[0].segments| && Cursor(k) + 2 * j + 2 <= |packets[0].segments[k]|
    requires Contributes(packets, m, k, j)
    ensures k < |packets[m].segments| && Cursor(k) + 2 * j + 2 <= |packets[m].segments[k]|
    ensures PairValue(packets[m].segments, k, j) <= PairValue(Hold(packets), k, j)
  {
    HoldIsPeak(packets, k, j);
  }

  /** A byte outside all windows keeps its value from the first packet. */
  lemma {:induction false} HoldKeepsOthers(packets: seq<Packet>, k: nat, p: nat)
    requires Mergeable(packets)
    requires k < |packets[0].segments| && p < |packets[0].segments[k]|
    requires p < Cursor(k) || forall m :: 1 <= m < |packets| ==> !Covers(packets[m], k, (p - Cursor(k)) / 2)
    ensures Hold(packets)[k][p] == packets[0].segments[k][p]
  {
    var last := |packets| - 1;
    if last > 0 {
      HoldKeepsOthers(packets[..last], k, p);
    }
  }

  /** Two pairs of bytes with the same 16-bit value are the same bytes. */
  lemma SameValueSameBytes(a: seq<Byte>, b: seq<Byte>, at: nat)
    requires at + 2 <= |a| && at + 2 <= |b| && BigEndian(a, at) == BigEndian(b, at)
    ensures a[at] == b[at] && a[at + 1] == b[at + 1]
  {
  }

  lemma ReorderedMember(first: Packet, rest: seq<Packet>, other: seq<Packet>, m: nat) returns (m': nat)
    requires multiset(rest) == multiset(other) && m < |rest| + 1
    ensures m' < |other| + 1 && ([first] + other)[m'] == ([first] + rest)[m] && (m' == 0 <==> m == 0)
  {
    if m == 0 {
      m' := 0;
    } else {
      assert rest[m - 1] in multiset(rest);
      assert rest[m - 1] in other;
      var i :| 0 <= i < |other| && other[i] == rest[m - 1];
      m' := i + 1;
    }
  }

  lemma ReorderedMergeable(first: Packet, rest: seq<Packet>, other: seq<Packet>)
    requires multiset(rest) == multiset(other) && Mergeable([first] + rest)
    ensures Mergeable([first] + other)
  {
    var packets := [first] + other;
    forall m | 1 <= m < |packets| ensures Fits(first.segments, packets[m]) {
      var m' := ReorderedMember(first, other, rest, m);
    }
  }

  lemma ReorderedPeak(first: Packet, rest: seq<Packet>, other: seq<Packet>, k: nat, j: nat, w: int)
    requires multiset(rest) == multiset(other)
    requires Mergeable([first] + rest) && Mergeable([first] + other)
    requires k < |first.segments| && Cursor(k) + 2 * j + 2 <= |first.segments[k]|
    requires IsPeak([first] + rest, k, j, w)
    ensures IsPeak([first] + other, k, j, w)
  {
    var a, b := [first] + rest, [first] + other;
    forall m | 0 <= m < |b| && Contributes(b, m, k, j) ensures PairValue(b[m].segments, k, j) <= w {
      var m' := ReorderedMember(first, other, rest, m);
      assert Contributes(a, m', k, j);
    }
    var m :| 0 <= m < |a| && Contributes(a, m, k, j) && PairValue(a[m].segments, k, j) == w;
    var m' := ReorderedMember(first, rest, other, m);
    assert Contributes(b, m', k, j);
  }

  /** The order in which the later packets of a batch arrive does not change a single byte. */
  lemma HoldOrderIndependent(first: Packet, rest: seq<Packet>, other: seq<Packet>)
    requires multiset(rest) == multiset(other) && Mergeable([first] + rest)
    ensures Mergeable([first] + other)
    ensures Hold([first] + rest) == Hold([first] + other)
  {
    ReorderedMergeable(first, rest, other);
    var a, b := [first] + rest, [first] + other;
    forall k, p | 0 <= k < |first.segments| && 0 <= p < |first.segments[k]|
      ensures Hold(a)[k][p] == Hold(b)[k][p]
    {
      SameByte(first, rest, other, k, p);
    }
    SameBytesSameFrame(Hold(a), Hold(b));
  }

  lemma SameBytesSameFrame(a: Frame, b: Frame)
    requires SameShape(a, b)
    requires forall k, p :: 0 <= k < |a| && 0 <= p < |a[k]| ==> a[k][p] == b[k][p]
    ensures a == b
  {
    forall k | 0 <= k < |a| ensures a[k] == b[k] {
    }
  }

  lemma SamePair(first: Packet, rest: seq<Packet>, other: seq<Packet>, k: nat, j: nat)
    requires multiset(rest) == multiset(other)
    requires Mergeable([first] + rest) && Mergeable([first] + other)
    requires k < |first.segments| && Cursor(k) + 2 * j + 2 <= |first.segments[k]|
    ensures PairValue(Hold([first] + rest), k, j) == PairValue(Hold([first] + other), k, j)
  {
    var a, b := [first] + rest, [first] + other;
    HoldIsPeak(a, k, j);
    HoldIsPeak(b, k, j);
    ReorderedPeak(first, rest, other, k, j, PairValue(Hold(a), k, j));
  }

  lemma SameByte(first: Packet, rest: seq<Packet>, other: seq<Packet>, k: nat, p: nat)
    requires multiset(rest) == multiset(other)
    requires Mergeable([first] + rest) && Mergeable([first] + other)
    requires k < |first.segments| && p < |first.segments[k]|
    ensures Hold([first] + rest)[k][p] == Hold([first] + other)[k][p]
  {
    var a, b := [first] + rest, [first] + other;
    var j := if p < Cursor(k) then 0 else (p - Cursor(k)) / 2;
    if Cursor(k) <= p && Cursor(k) + 2 * j + 2 <= |first.segments[k]| {
      SamePair(first, rest, other, k, j);
      SamePairBytes(Hold(a), Hold(b), k, j);
      assert p == Cursor(k) + 2 * j || p == Cursor(k) + 2 * j + 1;
    } else {
      Uncovered(a, k, p);
      Uncovered(b, k, p);
    }
  }

  lemma SamePairBytes(a: Frame, b: Frame, k: nat, j: nat)
    requires SameShape(a, b) && k < |a| && Cursor(k) + 2 * j + 2 <= |a[k]|
    requires PairValue(a, k, j) == PairValue(b, k, j)
    ensures a[k][Cursor(k) + 2 * j] == b[k][Cursor(k) + 2 * j]
    ensures a[k][Cursor(k) + 2 * j + 1] == b[k][Cursor(k) + 2 * j + 1]
  {
    SameValueSameBytes(a[k], b[k], Cursor(k) + 2 * j);
  }

  /** A byte in front of the cursor, or without a partner at the end of its segment, is in no window. */
  lemma Uncovered(packets: seq<Packet>, k: nat, p: nat)
    requires Mergeable(packets)
    requires k < |packets[0].segments| && p < |packets[0].segments[k]|
    requires p < Cursor(k) || Cursor(k) + 2 * ((p - Cursor(k)) / 2) + 2 > |packets[0].segments[k]|
    ensures Hold(packets)[k][p] == packets[0].segments[k][p]
  {
    HoldKeepsOthers(packets, k, p);
  }
}
