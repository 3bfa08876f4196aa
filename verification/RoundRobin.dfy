/**
  The list-walking macro of the scheduler: a circular list of items and one end marker, and an index
  that skips the marker.
*/
module RoundRobin {
  import opened Modular

  class ListItem {
    var next: ListItem?
    const owner: int

    constructor (owner: int)
      ensures this.owner == owner && next == null
    {
      this.owner := owner;
      next := null;
    }
  }

  /** `ring` is the end marker followed by all items in list order, and the links go round it. */
  ghost predicate Circular(ring: seq<ListItem>)
    reads ring
  {
    && |ring| >= 2
    && (forall i, j :: 0 <= i < j < |ring| ==> ring[i] != ring[j])
    && (forall i :: 0 <= i < |ring| - 1 ==> ring[i].next == ring[i + 1])
    && ring[|ring| - 1].next == ring[0]
  }

  /** The position of the index after one use; position 0 is the end marker. */
  function NextPosition(items: nat, i: nat): nat
    requires items > 0
  {
    i % items + 1
  }

  /** One position on, and one more when that is the marker. */
  lemma PositionSkipsMarker(items: nat, i: nat)
    requires items > 0 && i <= items
    ensures NextPosition(items, i) == if i == items then 1 else i + 1
  {
    ModNearZero(if i == items then 0 else i, items);
    ModAddMultiple(0, 1, items);
  }

  /** The position after `k` uses. */
  function PositionAfter(items: nat, i: nat, k: nat): nat
    requires items > 0
  {
    if k == 0 then i else (i + k - 1) % items + 1
  }

  lemma PositionStep(items: nat, i: nat, k: nat)
    requires items > 0
    ensures PositionAfter(items, i, k + 1) == NextPosition(items, PositionAfter(items, i, k))
  {
    if k > 0 { ModShift(i + k - 1, 1, 0, items); }
  }

  function Owners(ring: seq<ListItem>): (r: seq<int>)
    requires |ring| > 0
    ensures |r| == |ring| - 1
  {
    seq(|ring| - 1, i requires 0 <= i < |ring| - 1 => ring[i + 1].owner)
  }

  /** The owners in list order, starting behind position `i` and going once round. */
  function OwnersFrom(ring: seq<ListItem>, i: nat): seq<int>
    requires |ring| >= 2
  {
    var start := i % (|ring| - 1);
    Owners(ring)[start..] + Owners(ring)[..start]
  }

  lemma OwnersFromAt(ring: seq<ListItem>, i: nat, k: nat)
    requires |ring| >= 2 && k < |ring| - 1
    ensures |OwnersFrom(ring, i)| == |ring| - 1
    ensures OwnersFrom(ring, i)[k] == ring[PositionAfter(|ring| - 1, i, k + 1)].owner
  {
    var n := |ring| - 1;
    RotatedIndex(i, k, n);
    var start := i % n;
    assert PositionAfter(n, i, k + 1) == (if start + k < n then start + k else start + k - n) + 1;
  }

  lemma RotatedIndex(i: nat, k: nat, n: nat)
    requires k < n
    ensures (i + k) % n == if i % n + k < n then i % n + k else i % n + k - n
  {
    ModShift(i, k, 0, n);
    ModNearZero(i % n + k - n, n);
    ModAddMultiple(i % n + k, -1, n);
  }

  class List {
    var index: ListItem
    const end: ListItem

    constructor (end: ListItem)
      ensures this.end == end && index == end
    {
      this.end := end;
      index := end;
    }

    /** One use of the macro: go to the next item, skip the marker, return the owner. */
    method NextOwner(ghost ring: seq<ListItem>, ghost i: nat) returns (owner: int)
      requires Circular(ring) && ring[0] == end && i < |ring| && index == ring[i]
      modifies this`index
      ensures NextPosition(|ring| - 1, i) < |ring| && index == ring[NextPosition(|ring| - 1, i)]
      ensures index != end && owner == index.owner
    {
      PositionSkipsMarker(|ring| - 1, i);
      assert ring[0].next == ring[1] && (i < |ring| - 1 ==> ring[i].next == ring[i + 1]);
      index := index.next;
      if index == end {
        index := index.next;
      }
      owner := index.owner;
    }

    /**
      As many uses as there are items, from any position: each owner is returned once, in list order
      from that position on; one use more ends where the first one did.
    */
    method Round(ghost ring: seq<ListItem>, ghost i: nat, items: nat) returns (owners: seq<int>)
      requires Circular(ring) && ring[0] == end && i < |ring| && index == ring[i] && items == |ring| - 1
      modifies this`index
      ensures owners == OwnersFrom(ring, i)
      ensures PositionAfter(items, i, items) < |ring| && index == ring[PositionAfter(items, i, items)]
      ensures NextPosition(items, PositionAfter(items, i, items)) == NextPosition(items, i)
    {
      owners := [];
      var k := 0;
      while k < items
        invariant 0 <= k <= items && |owners| == k
        invariant PositionAfter(items, i, k) < |ring| && index == ring[PositionAfter(items, i, k)]
        invariant forall j :: 0 <= j < k ==> owners[j] == OwnersFrom(ring, i)[j]
      {
        PositionStep(items, i, k);
        OwnersFromAt(ring, i, k);
        var owner := NextOwner(ring, PositionAfter(items, i, k));
        owners := owners + [owner];
        k := k + 1;
      }
      PositionStep(items, i, items);
      ModAddMultiple(i, 1, items);
    }
  }

  /** Going once round returns every owner exactly as often as the list holds it. */
  lemma RoundReturnsAll(ring: seq<ListItem>, i: nat)
    requires |ring| >= 2
    ensures multiset(OwnersFrom(ring, i)) == multiset(Owners(ring))
  {
    var start := i % (|ring| - 1);
    assert Owners(ring) == Owners(ring)[..start] + Owners(ring)[start..];
  }
}
