/** The parse task's own variables: the batch counter and the held chain, updated packet by packet. */
module ParseTask {
  import opened MachineTypes
  import opened PeakHold
  import opened Batch

  const NOMINAL_COUNTER := 10

  class PacketMerger {
    var counter: nat
    var held: seq<array<Byte>>
    ghost var batch: seq<Packet>  // the packets of the current batch, as they arrived

    /** The held chain is the peak-hold of the packets counted so far. */
    ghost predicate Valid()
      reads this, held
    {
      && 1 <= counter == |batch| + 1 <= 10
      && (batch != [] ==> Distinct(held) && Mergeable(batch) && Contents(held) == Hold(batch))
    }

    constructor ()
      ensures Valid() && batch == []
    {
      counter, held, batch := 1, [], [];
    }

    /**
      One packet. The first of a batch becomes the held chain; any other is merged into it and is to be
      freed. The tenth finishes the batch: the held chain then is the peak-hold of all ten, and the
      next packet starts a new batch.
    */
    method HandlePacket(chain: seq<array<Byte>>, total: nat) returns (free: bool, finished: bool)
      requires Valid() && Distinct(chain)
      requires batch != [] ==> Disjoint(held, chain) && Fits(Contents(held), Packet(total, Contents(chain)))
      modifies this, held
      ensures Valid()
      ensures free == (old(batch) != []) && finished == (|old(batch)| == 9)
      ensures held == if old(batch) == [] then chain else old(held)
      ensures batch == if finished then [] else old(batch) + [Packet(total, old(Contents(chain)))]
      ensures
        var packets := old(batch) + [Packet(total, old(Contents(chain)))];
        Mergeable(packets) && Contents(held) == Hold(packets)
      ensures Contents(chain) == old(Contents(chain))
    {
      ghost var packet := Packet(total, Contents(chain));
      free, finished := false, false;
      if counter == 1 {
        held := chain;
        batch := [packet];
      } else {
        HoldExtends(batch, packet);
        MergeChain(held, chain, total);
        batch := batch + [packet];
        free := true;
        if counter >= NOMINAL_COUNTER {
          finished := true;
          counter := 0;
          batch := [];
        }
      }
      counter := counter + 1;
    }
  }
}
