/** Slots, epochs and sync committee periods. */
module Slots {

  function EpochAtSlot(slot: nat, slotsPerEpoch: nat): nat
    requires slotsPerEpoch > 0
  {
    slot / slotsPerEpoch
  }

  lemma BoundarySlot(epoch: nat, slotsPerEpoch: nat)
    requires slotsPerEpoch > 0
    ensures epoch * slotsPerEpoch % slotsPerEpoch == 0
    ensures EpochAtSlot(epoch * slotsPerEpoch, slotsPerEpoch) == epoch
  {
    var p := epoch * slotsPerEpoch;
    var d, r := epoch - p / slotsPerEpoch, p % slotsPerEpoch;
    assert p == p / slotsPerEpoch * slotsPerEpoch + r;
    assert d * slotsPerEpoch == r;
    assert d == 0;
  }

  lemma EpochOrder(slot: nat, epoch: nat, slotsPerEpoch: nat)
    requires slotsPerEpoch > 0
    ensures slot < epoch * slotsPerEpoch <==> EpochAtSlot(slot, slotsPerEpoch) < epoch
  {
    var q := slot / slotsPerEpoch;
    assert q * slotsPerEpoch <= slot < (q + 1) * slotsPerEpoch;
    if q < epoch {
      assert (q + 1) * slotsPerEpoch <= epoch * slotsPerEpoch;
    } else {
      assert epoch * slotsPerEpoch <= q * slotsPerEpoch;
    }
  }

  lemma EpochMonotone(a: nat, b: nat, slotsPerEpoch: nat)
    requires slotsPerEpoch > 0 && a <= b
    ensures EpochAtSlot(a, slotsPerEpoch) <= EpochAtSlot(b, slotsPerEpoch)
  {
    EpochOrder(a, EpochAtSlot(b, slotsPerEpoch) + 1, slotsPerEpoch);
    EpochOrder(b, EpochAtSlot(b, slotsPerEpoch) + 1, slotsPerEpoch);
  }
}
