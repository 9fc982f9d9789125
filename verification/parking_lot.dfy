/**
  `ParkingLot` (scripts/data/parking_lot.py): a frozen record of a lot's parking
  areas and capacity. The simulator query `traci.parkingarea.getVehicleCount`
  becomes the parameter `count`, from parking-area id to vehicles parked there.
 */
module ParkingLot {
  import opened Common

  /** A frozen dataclass: a value that no operation changes. */
  datatype Lot = Lot(lotId: string, parkingAreaIds: seq<string>, totalCapacity: Option<int>)

  /** The sum of `count` over `ids`, in list order. */
  function SumCounts(ids: seq<string>, count: string -> nat): (n: nat)
    ensures |ids| == 0 ==> n == 0
    ensures forall i :: 0 <= i < |ids| ==> count(ids[i]) <= n
    decreases |ids|
  {
    if |ids| == 0 then 0
    else
      var init := ids[..|ids| - 1];
      assert forall i :: 0 <= i < |init| ==> init[i] == ids[i];
      SumCounts(init, count) + count(ids[|ids| - 1])
  }

  /** `total_occupancy`: vehicles parked over all of the lot's parking areas. */
  function TotalOccupancy(lot: Lot, count: string -> nat): (n: nat)
    ensures |lot.parkingAreaIds| == 0 ==> n == 0
    ensures forall i :: 0 <= i < |lot.parkingAreaIds| ==> count(lot.parkingAreaIds[i]) <= n
  {
    SumCounts(lot.parkingAreaIds, count)
  }

  /**
    `availability`: the free spaces, never below zero. It needs a capacity;
    Python fails on `None - int`.
   */
  function Availability(lot: Lot, count: string -> nat): (a: nat)
    requires lot.totalCapacity.Some?
    ensures a >= lot.totalCapacity.value - TotalOccupancy(lot, count)
    ensures a == 0 || a == lot.totalCapacity.value - TotalOccupancy(lot, count)
  {
    var free := lot.totalCapacity.value - TotalOccupancy(lot, count);
    if free < 0 then 0 else free
  }

  /** Occupancy adds up over a split of the area list. */
  lemma {:induction false} SumCountsAppend(a: seq<string>, b: seq<string>, count: string -> nat)
    ensures SumCounts(a + b, count) == SumCounts(a, count) + SumCounts(b, count)
    decreases |b|
  {
    if |b| == 0 {
      assert a + b == a;
    } else {
      var b' := b[..|b| - 1];
      assert (a + b)[..|a + b| - 1] == a + b';
      assert (a + b)[|a + b| - 1] == b[|b| - 1];
      SumCountsAppend(a, b', count);
    }
  }

  /** More vehicles in every area never means more free spaces. */
  lemma {:induction false} SumCountsMonotone(ids: seq<string>, c1: string -> nat, c2: string -> nat)
    requires forall i :: 0 <= i < |ids| ==> c1(ids[i]) <= c2(ids[i])
    ensures SumCounts(ids, c1) <= SumCounts(ids, c2)
    decreases |ids|
  {
    if |ids| > 0 {
      var init := ids[..|ids| - 1];
      assert forall i :: 0 <= i < |init| ==> init[i] == ids[i];
      SumCountsMonotone(init, c1, c2);
    }
  }

  /** Availability falls as occupancy rises. */
  lemma AvailabilityAntitone(lot: Lot, c1: string -> nat, c2: string -> nat)
    requires lot.totalCapacity.Some?
    requires forall i :: 0 <= i < |lot.parkingAreaIds| ==> c1(lot.parkingAreaIds[i]) <= c2(lot.parkingAreaIds[i])
    ensures Availability(lot, c2) <= Availability(lot, c1)
  {
    SumCountsMonotone(lot.parkingAreaIds, c1, c2);
  }

  /** Free plus occupied spaces make up the capacity exactly while the lot is not over-full. */
  lemma AvailabilityComplementsOccupancy(lot: Lot, count: string -> nat)
    requires lot.totalCapacity.Some?
    ensures TotalOccupancy(lot, count) <= lot.totalCapacity.value ==>
              Availability(lot, count) + TotalOccupancy(lot, count) == lot.totalCapacity.value
    ensures TotalOccupancy(lot, count) > lot.totalCapacity.value ==> Availability(lot, count) == 0
  {
  }
}
