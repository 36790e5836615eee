/** The lot-wide consistency invariant and what park and unpark do to it. */
module LotProperties {
  import opened Wrappers
  import opened Spots
  import opened Fees
  import opened Floors
  import opened Lots

  /** The ticket stored under `l` is open, names the licence it is stored
      under, and its spot is occupied by the ticket's vehicle. */
  ghost predicate TicketHeld(lot: Lot, l: string)
    requires l in lot.active
  {
    var t := lot.active[l];
    && t.spot < |lot.spots|
    && t.vehicle.license == l
    && t.exit.None?
    && lot.spots[t.spot].occupied
    && lot.spots[t.spot].vehicle == Some(t.vehicle)
  }

  /** Spot `s` belongs to some floor by number, and while free it is in the
      index of the first floor with that number. */
  ghost predicate Findable(lot: Lot, s: SpotRef)
    requires s < |lot.spots|
  {
    var h := HomeFloor(lot.floors, lot.spots[s].floor);
    && h.Some?
    && (IsAvailable(lot.spots[s]) ==> s in lot.floors[h.value].available)
  }

  /** Occupied spots are exactly the spots of active tickets, and every free
      spot can be found again by the floor search. */
  ghost predicate Consistent(lot: Lot) {
    && WellFormed(lot)
    && (forall s :: 0 <= s < |lot.spots| ==> Coherent(lot.spots[s]) && Findable(lot, s))
    && (forall l :: l in lot.active ==> TicketHeld(lot, l))
    && (forall s :: 0 <= s < |lot.spots| && lot.spots[s].occupied ==>
          exists l :: l in lot.active && lot.active[l].spot == s)
  }

  /** No two active tickets share a spot. */
  lemma NoDoubleClaim(lot: Lot, l1: string, l2: string)
    requires Consistent(lot)
    requires l1 in lot.active && l2 in lot.active && l1 != l2
    ensures lot.active[l1].spot != lot.active[l2].spot
  {
    assert TicketHeld(lot, l1) && TicketHeld(lot, l2);
  }

  /** The first floor with a given number depends only on the floor numbers. */
  lemma HomeFloorDependsOnNumbers(f1: seq<Floor>, f2: seq<Floor>)
    requires |f1| == |f2|
    requires forall i :: 0 <= i < |f1| ==> f1[i].number == f2[i].number
    ensures forall n :: HomeFloor(f1, n) == HomeFloor(f2, n)
  {
  }

  /** A lot as configured: fresh floors and free spots, no tickets. */
  function NewLot(floors: seq<Floor>, spots: seq<Spot>, strategy: FeeStrategy): Lot {
    Lot(floors, spots, map[], strategy)
  }

  /** A freshly configured lot is consistent when each spot is listed on the
      first floor carrying its floor number. */
  lemma NewLotIsConsistent(floors: seq<Floor>, spots: seq<Spot>, strategy: FeeStrategy)
    requires forall s :: 0 <= s < |spots| ==> !spots[s].occupied && spots[s].vehicle.None?
    requires forall i :: 0 <= i < |floors| ==> floors[i] == NewFloor(floors[i].number, floors[i].allSpots)
    requires forall i, x :: 0 <= i < |floors| && x in floors[i].allSpots ==> x < |spots|
    requires forall s :: 0 <= s < |spots| ==>
      var h := HomeFloor(floors, spots[s].floor);
      h.Some? && s in floors[h.value].allSpots
    ensures Consistent(NewLot(floors, spots, strategy))
  {
    var lot := NewLot(floors, spots, strategy);
    forall i | 0 <= i < |floors|
      ensures RefsIn(floors[i].available, spots)
    {
      forall x | x in floors[i].available
        ensures x < |spots|
      {
        assert x in floors[i].allSpots;
      }
    }
    forall s | 0 <= s < |spots|
      ensures Findable(lot, s)
    {
      var h := HomeFloor(floors, spots[s].floor).value;
      assert floors[h].available == multiset(floors[h].allSpots);
    }
  }

  /** The lot after floor `k` handed out free spot `s0` for `v` under a
      licence with no active ticket. */
  ghost predicate FreshClaim(lot: Lot, lot': Lot, v: Vehicle, t: Ticket, k: nat)
  {
    && Consistent(lot)
    && v.license !in lot.active
    && k < |lot.floors|
    && t.vehicle == v && t.exit.None?
    && t.spot in lot.floors[k].available
    && Qualifies(lot.spots, t.spot, v)
    && lot' == lot.(
         floors := lot.floors[k := lot.floors[k].(available := lot.floors[k].available - multiset{t.spot})],
         spots := lot.spots[t.spot := lot.spots[t.spot].(occupied := true, vehicle := Some(v))],
         active := lot.active[v.license := t])
  }

  lemma ClaimKeepsSpotsFindable(lot: Lot, lot': Lot, v: Vehicle, t: Ticket, k: nat)
    requires FreshClaim(lot, lot', v, t, k)
    ensures forall s :: 0 <= s < |lot'.spots| ==> Coherent(lot'.spots[s]) && Findable(lot', s)
  {
    HomeFloorDependsOnNumbers(lot.floors, lot'.floors);
    forall s | 0 <= s < |lot'.spots|
      ensures Coherent(lot'.spots[s]) && Findable(lot', s)
    {
      if s != t.spot {
        assert Findable(lot, s);
        var h := HomeFloor(lot.floors, lot.spots[s].floor).value;
        if IsAvailable(lot.spots[s]) && h == k {
          assert s in lot.floors[k].available - multiset{t.spot};
        }
      }
    }
  }

  lemma ClaimKeepsTicketsHeld(lot: Lot, lot': Lot, v: Vehicle, t: Ticket, k: nat)
    requires FreshClaim(lot, lot', v, t, k)
    ensures forall l :: l in lot'.active ==> TicketHeld(lot', l)
  {
    forall l | l in lot'.active
      ensures TicketHeld(lot', l)
    {
      if l != v.license {
        assert TicketHeld(lot, l);
      }
    }
  }

  lemma ClaimKeepsOccupiedReferenced(lot: Lot, lot': Lot, v: Vehicle, t: Ticket, k: nat)
    requires FreshClaim(lot, lot', v, t, k)
    ensures forall s :: 0 <= s < |lot'.spots| && lot'.spots[s].occupied ==>
              exists l :: l in lot'.active && lot'.active[l].spot == s
  {
    forall s | 0 <= s < |lot'.spots| && lot'.spots[s].occupied
      ensures exists l :: l in lot'.active && lot'.active[l].spot == s
    {
      if s == t.spot {
        assert lot'.active[v.license].spot == s;
      } else {
        var l :| l in lot.active && lot.active[l].spot == s;
        assert lot'.active[l].spot == s;
      }
    }
  }

  /** Parking a vehicle whose licence holds no active ticket keeps the lot
      consistent. */
  lemma ParkPreservesConsistency(lot: Lot, v: Vehicle, now: int)
    requires Consistent(lot)
    requires v.license !in lot.active
    ensures Consistent(ParkVehicle(lot, v, now).0)
  {
    var (lot', res) := ParkVehicle(lot, v, now);
    if res.Success? {
      var t := res.value;
      var k :| ClaimedAt(lot, v, now, 0, k, lot', t);
      assert FreshClaim(lot, lot', v, t, k);
      ClaimKeepsSpotsFindable(lot, lot', v, t, k);
      ClaimKeepsTicketsHeld(lot, lot', v, t, k);
      ClaimKeepsOccupiedReferenced(lot, lot', v, t, k);
    }
  }

  /** Unparking keeps the lot consistent, whether or not the licence is
      known. */
  lemma UnparkPreservesConsistency(lot: Lot, license: string, now: int)
    requires Consistent(lot)
    ensures Consistent(UnparkVehicle(lot, license, now).0)
  {
    if license in lot.active {
      var lot' := UnparkVehicle(lot, license, now).0;
      var t := lot.active[license];
      var s0 := t.spot;
      assert TicketHeld(lot, license);
      HomeFloorDependsOnNumbers(lot.floors, lot'.floors);
      forall s | 0 <= s < |lot'.spots|
        ensures Coherent(lot'.spots[s]) && Findable(lot', s)
      {
        assert Findable(lot, s);
        var h := HomeFloor(lot.floors, lot.spots[s].floor).value;
        if s == s0 {
          assert s0 in lot'.floors[h].available;
        } else if IsAvailable(lot.spots[s]) {
          assert s in lot'.floors[h].available;
        }
      }
      forall l | l in lot'.active
        ensures TicketHeld(lot', l)
      {
        assert TicketHeld(lot, l);
        NoDoubleClaim(lot, l, license);
      }
      forall s | 0 <= s < |lot'.spots| && lot'.spots[s].occupied
        ensures exists l :: l in lot'.active && lot'.active[l].spot == s
      {
        var l :| l in lot.active && lot.active[l].spot == s;
        assert l != license;
        assert lot'.active[l].spot == s;
      }
    }
  }

  /** In a consistent lot parking fails exactly when no spot of the whole lot
      is free, permitted and fitting for the vehicle. */
  lemma ParkFailsIffNothingFits(lot: Lot, v: Vehicle, now: int)
    requires Consistent(lot)
    ensures ParkVehicle(lot, v, now).1.Failure? <==>
            forall s :: 0 <= s < |lot.spots| ==> !Qualifies(lot.spots, s, v)
  {
    var (lot', res) := ParkVehicle(lot, v, now);
    if res.Failure? {
      forall s | 0 <= s < |lot.spots|
        ensures !Qualifies(lot.spots, s, v)
      {
        assert Findable(lot, s);
        var h := HomeFloor(lot.floors, lot.spots[s].floor).value;
        assert NoneQualifies(lot.floors[h], lot.spots, v);
      }
    } else {
      var k :| ClaimedAt(lot, v, now, 0, k, lot', res.value);
      assert Qualifies(lot.spots, res.value.spot, v);
    }
  }

  /** `parkVehicle` does not check for an active ticket: parking a licence a
      second time replaces its ticket, and the first spot stays occupied with
      no active ticket referring to it, so the lot is no longer consistent. */
  lemma ParkingTwiceOrphansSpot(lot: Lot, v: Vehicle, now: int)
    requires Consistent(lot)
    requires v.license in lot.active
    requires ParkVehicle(lot, v, now).1.Success?
    ensures var lot' := ParkVehicle(lot, v, now).0;
            var first := lot.active[v.license].spot;
            && first < |lot'.spots|
            && lot'.spots[first].occupied
            && (forall l :: l in lot'.active ==> lot'.active[l].spot != first)
            && !Consistent(lot')
  {
    var (lot', res) := ParkVehicle(lot, v, now);
    var t := res.value;
    var k :| ClaimedAt(lot, v, now, 0, k, lot', t);
    var first := lot.active[v.license].spot;
    assert TicketHeld(lot, v.license);
    assert t.spot != first;
    forall l | l in lot'.active
      ensures lot'.active[l].spot != first
    {
      if l != v.license {
        NoDoubleClaim(lot, l, v.license);
      }
    }
  }

  /** Parking and then unparking the same licence gives every spot and the
      ticket map back as they were, and charges for the time in between. */
  lemma ParkThenUnparkRestores(lot: Lot, v: Vehicle, entry: int, exit: int)
    requires Consistent(lot)
    requires v.license !in lot.active
    requires ParkVehicle(lot, v, entry).1.Success?
    ensures var (lot1, parked) := ParkVehicle(lot, v, entry);
            var (lot2, unparked) := UnparkVehicle(lot1, v.license, exit);
            && unparked.Success?
            && unparked.value.ticket == parked.value.(exit := Some(exit))
            && unparked.value.fee == FeeTenths(lot.strategy, v.kind, exit - entry)
            && lot2.spots == lot.spots
            && lot2.active == lot.active
            && Consistent(lot2)
  {
    var (lot1, parked) := ParkVehicle(lot, v, entry);
    var k :| ClaimedAt(lot, v, entry, 0, k, lot1, parked.value);
    assert FreshClaim(lot, lot1, v, parked.value, k);
    assert parked.value.entry == entry;
    ParkPreservesConsistency(lot, v, entry);
    UnparkPreservesConsistency(lot1, v.license, exit);
    UnparkUndoesClaim(lot, lot1, v, parked.value, k, exit);
  }

  lemma UnparkUndoesClaim(lot: Lot, lot1: Lot, v: Vehicle, t: Ticket, k: nat, exit: int)
    requires FreshClaim(lot, lot1, v, t, k)
    ensures WellFormed(lot1)
    ensures var (lot2, unparked) := UnparkVehicle(lot1, v.license, exit);
            && unparked.Success?
            && unparked.value.ticket == t.(exit := Some(exit))
            && unparked.value.fee == FeeTenths(lot.strategy, v.kind, exit - t.entry)
            && lot2.spots == lot.spots && lot2.active == lot.active
  {
    var lot2 := UnparkVehicle(lot1, v.license, exit).0;
    assert lot1.active[v.license] == t;
    assert Coherent(lot.spots[t.spot]);
    assert |lot2.spots| == |lot.spots|;
    forall s | 0 <= s < |lot.spots|
      ensures lot2.spots[s] == lot.spots[s]
    {
    }
    assert lot2.active == lot.active;
  }
}
