/** Concrete lots: the one `ParkingLotMain.main` configures, and a floor of
    compact spots at distances 3, 1 and 2 from the gate. */
module Scenarios {
  import opened Wrappers
  import opened Spots
  import opened Fees
  import opened Floors
  import opened Lots
  import opened LotProperties

  /** Floor 1 of the driver: a bike spot, a compact spot and a large spot at
      distances 1, 2 and 3. */
  function DriverLot(): (lot: Lot)
    ensures Consistent(lot)
  {
    var spots := [CreateSpot(BikeSpot, "F1-B1", 1, 1),
                  CreateSpot(CompactSpot, "F1-C1", 2, 1),
                  CreateSpot(LargeSpot, "F1-L1", 3, 1)];
    var floors := [NewFloor(1, [0, 1, 2])];
    NewLotIsConsistent(floors, spots, HourlyBased);
    NewLot(floors, spots, HourlyBased)
  }

  /** The only spot a vehicle may take on the driver's floor is the one of
      its effective type: the car gets the compact spot even though the
      large spot is permitted for cars. */
  lemma DriverCarTakesCompactSpot(now: int)
    ensures var r := ParkVehicle(DriverLot(), Vehicle("CAR123", Car), now).1;
            r.Success? && r.value.spot == 1
  {
    var lot := DriverLot();
    var v := Vehicle("CAR123", Car);
    assert Qualifies(lot.spots, 1, v);
    ParkFailsIffNothingFits(lot, v, now);
    var (lot', r) := ParkVehicle(lot, v, now);
    var k: nat :| ClaimedAt(lot, v, now, 0, k, lot', r.value);
    assert Qualifies(lot.spots, r.value.spot, v);
  }

  /** Three compact spots at distances 3, 1 and 2. */
  function NearestFirstLot(): (lot: Lot)
    ensures Consistent(lot)
  {
    var spots := [CreateSpot(CompactSpot, "C0", 3, 0),
                  CreateSpot(CompactSpot, "C1", 1, 0),
                  CreateSpot(CompactSpot, "C2", 2, 0)];
    var floors := [NewFloor(0, [0, 1, 2])];
    NewLotIsConsistent(floors, spots, MinuteBased);
    NewLot(floors, spots, MinuteBased)
  }

  /** On a one-floor consistent lot, the strictly nearest accepted spot is
      the one claimed. */
  lemma ParkedInto(lot: Lot, v: Vehicle, now: int, s: SpotRef)
    requires Consistent(lot) && |lot.floors| == 1 && s < |lot.spots|
    requires v.license !in lot.active
    requires Qualifies(lot.spots, s, v)
    requires forall x :: 0 <= x < |lot.spots| && x != s && Qualifies(lot.spots, x, v) ==>
               Dist(lot.spots, s) < Dist(lot.spots, x)
    ensures ParkVehicle(lot, v, now) ==
            (lot.(floors := [lot.floors[0].(available := lot.floors[0].available - multiset{s})],
                  spots := lot.spots[s := lot.spots[s].(occupied := true, vehicle := Some(v))],
                  active := lot.active[v.license := Ticket(v, s, now, None)]),
             Success(Ticket(v, s, now, None)))
    ensures Consistent(ParkVehicle(lot, v, now).0)
  {
    ParkFailsIffNothingFits(lot, v, now);
    ParkPreservesConsistency(lot, v, now);
    var (lot', r) := ParkVehicle(lot, v, now);
    var k: nat :| ClaimedAt(lot, v, now, 0, k, lot', r.value);
    assert Findable(lot, s);
    assert s in lot.floors[k].available;
    assert lot.floors[k := lot.floors[k].(available := lot.floors[k].available - multiset{r.value.spot})]
        == [lot.floors[0].(available := lot.floors[0].available - multiset{s})];
  }

  /** When every spot is occupied, parking fails and changes nothing. */
  lemma FullLotTurnsAway(lot: Lot, v: Vehicle, now: int)
    requires Consistent(lot)
    requires forall s :: 0 <= s < |lot.spots| ==> lot.spots[s].occupied
    ensures ParkVehicle(lot, v, now) == (lot, Failure(NoSpotAvailable(v.kind)))
  {
    ParkFailsIffNothingFits(lot, v, now);
  }

  /** Successive cars get the spots at distance 1, 2 and 3 in that order,
      and a fourth car is turned away. */
  lemma NearestFirstOrder(now: int) returns (lot1: Lot, lot2: Lot, lot3: Lot)
    ensures ParkVehicle(NearestFirstLot(), Vehicle("A", Car), now) == (lot1, Success(Ticket(Vehicle("A", Car), 1, now, None)))
    ensures ParkVehicle(lot1, Vehicle("B", Car), now) == (lot2, Success(Ticket(Vehicle("B", Car), 2, now, None)))
    ensures ParkVehicle(lot2, Vehicle("C", Car), now) == (lot3, Success(Ticket(Vehicle("C", Car), 0, now, None)))
    ensures WellFormed(lot3) && ParkVehicle(lot3, Vehicle("D", Car), now) == (lot3, Failure(NoSpotAvailable(Car)))
  {
    lot1 := FirstCar(now);
    lot2 := SecondCar(lot1, now);
    lot3 := ThirdCar(lot2, now);
    FourthCar(lot3, now);
  }

  lemma FirstCar(now: int) returns (lot1: Lot)
    ensures ParkVehicle(NearestFirstLot(), Vehicle("A", Car), now) == (lot1, Success(Ticket(Vehicle("A", Car), 1, now, None)))
    ensures Consistent(lot1) && |lot1.floors| == 1 && |lot1.spots| == 3
    ensures lot1.spots[1].occupied && !lot1.spots[0].occupied && !lot1.spots[2].occupied
    ensures lot1.spots[0].kind == lot1.spots[2].kind == CompactSpot
    ensures lot1.spots[0].distance == 3 && lot1.spots[2].distance == 2
    ensures "B" !in lot1.active && "C" !in lot1.active && "D" !in lot1.active
  {
    var lot0 := NearestFirstLot();
    var a := Vehicle("A", Car);
    assert |lot0.floors| == 1 && |lot0.spots| == 3 && lot0.active == map[];
    forall x | 0 <= x < |lot0.spots|
      ensures Qualifies(lot0.spots, x, a) && Dist(lot0.spots, x) == [3, 1, 2][x]
    {
    }
    ParkedInto(lot0, a, now, 1);
    lot1 := ParkVehicle(lot0, a, now).0;
    assert lot1.spots == lot0.spots[1 := lot0.spots[1].(occupied := true, vehicle := Some(a))];
  }

  lemma SecondCar(lot1: Lot, now: int) returns (lot2: Lot)
    requires Consistent(lot1) && |lot1.floors| == 1 && |lot1.spots| == 3
    requires lot1.spots[1].occupied && !lot1.spots[0].occupied && !lot1.spots[2].occupied
    requires lot1.spots[0].kind == lot1.spots[2].kind == CompactSpot
    requires lot1.spots[0].distance == 3 && lot1.spots[2].distance == 2
    requires "B" !in lot1.active && "C" !in lot1.active && "D" !in lot1.active
    ensures ParkVehicle(lot1, Vehicle("B", Car), now) == (lot2, Success(Ticket(Vehicle("B", Car), 2, now, None)))
    ensures Consistent(lot2) && |lot2.floors| == 1 && |lot2.spots| == 3
    ensures lot2.spots[1].occupied && !lot2.spots[0].occupied && lot2.spots[2].occupied
    ensures lot2.spots[0].kind == CompactSpot
    ensures "C" !in lot2.active && "D" !in lot2.active
  {
    ParkedInto(lot1, Vehicle("B", Car), now, 2);
    lot2 := ParkVehicle(lot1, Vehicle("B", Car), now).0;
  }

  lemma ThirdCar(lot2: Lot, now: int) returns (lot3: Lot)
    requires Consistent(lot2) && |lot2.floors| == 1 && |lot2.spots| == 3
    requires lot2.spots[1].occupied && !lot2.spots[0].occupied && lot2.spots[2].occupied
    requires lot2.spots[0].kind == CompactSpot
    requires "C" !in lot2.active && "D" !in lot2.active
    ensures ParkVehicle(lot2, Vehicle("C", Car), now) == (lot3, Success(Ticket(Vehicle("C", Car), 0, now, None)))
    ensures Consistent(lot3) && |lot3.spots| == 3
    ensures lot3.spots[0].occupied && lot3.spots[1].occupied && lot3.spots[2].occupied
  {
    ParkedInto(lot2, Vehicle("C", Car), now, 0);
    lot3 := ParkVehicle(lot2, Vehicle("C", Car), now).0;
  }

  lemma FourthCar(lot3: Lot, now: int)
    requires Consistent(lot3) && |lot3.spots| == 3
    requires lot3.spots[0].occupied && lot3.spots[1].occupied && lot3.spots[2].occupied
    ensures ParkVehicle(lot3, Vehicle("D", Car), now) == (lot3, Failure(NoSpotAvailable(Car)))
  {
    FullLotTurnsAway(lot3, Vehicle("D", Car), now);
  }
}
