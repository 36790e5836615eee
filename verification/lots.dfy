/** `ParkingLot` and `ParkingTicket` (ParkingLotMain.java, sections 5 and 10),
    as pure transitions over an immutable lot. Each call is one atomic step,
    which is what the lot's global lock provides. */
module Lots {
  import opened Wrappers
  import opened Spots
  import opened Fees
  import opened Floors

  /** A ticket: the vehicle, its spot, and the entry and (once the vehicle
      leaves) exit times in milliseconds. */
  datatype Ticket = Ticket(vehicle: Vehicle, spot: SpotRef, entry: int, exit: Option<int>)

  /** What `unparkVehicle` hands back: the closed ticket and the fee, in
      tenths of a currency unit. */
  datatype Receipt = Receipt(ticket: Ticket, fee: int)

  datatype LotError = NoSpotAvailable(kind: VehicleType) | TicketNotFound(license: string)

  /** The lot: floors in configured order, the shared spot inventory, the
      active tickets keyed by licence plate, and the fee strategy. */
  datatype Lot = Lot(floors: seq<Floor>, spots: seq<Spot>, active: map<string, Ticket>, strategy: FeeStrategy)

  /** Every reference held by a floor index or a ticket names a spot. */
  ghost predicate WellFormed(lot: Lot) {
    && (forall i :: 0 <= i < |lot.floors| ==> RefsIn(lot.floors[i].available, lot.spots))
    && (forall l :: l in lot.active ==> lot.active[l].spot < |lot.spots|)
  }

  /** The first floor, in list order, whose number is `number`. */
  function HomeFloorFrom(floors: seq<Floor>, number: int, from: nat): (r: Option<nat>)
    requires from <= |floors|
    ensures r.Some? ==>
      && from <= r.value < |floors|
      && floors[r.value].number == number
      && forall j :: from <= j < r.value ==> floors[j].number != number
    ensures r.None? ==> forall j :: from <= j < |floors| ==> floors[j].number != number
    decreases |floors| - from
  {
    if from == |floors| then None
    else if floors[from].number == number then Some(from)
    else HomeFloorFrom(floors, number, from + 1)
  }

  function HomeFloor(floors: seq<Floor>, number: int): (r: Option<nat>)
    ensures r.Some? ==>
      && r.value < |floors|
      && floors[r.value].number == number
      && forall j :: 0 <= j < r.value ==> floors[j].number != number
    ensures r.None? ==> forall j :: 0 <= j < |floors| ==> floors[j].number != number
  {
    HomeFloorFrom(floors, number, 0)
  }

  /** The lot after the floor at index `k` handed out spot `t.spot` for `v`,
      and the resulting claim and ticket: floor `k` loses that index entry,
      the spot holds `v`, the ticket is stored under the licence. */
  ghost predicate ClaimedAt(lot: Lot, v: Vehicle, now: int, from: nat, k: nat, lot': Lot, t: Ticket)
    requires WellFormed(lot)
  {
    && from <= k < |lot.floors|
    && (forall j :: from <= j < k ==> NoneQualifies(lot.floors[j], lot.spots, v))
    && NearestQualifying(lot.floors[k], lot.spots, v, t.spot)
    && t == Ticket(v, t.spot, now, None)
    && lot' == lot.(
         floors := lot.floors[k := lot.floors[k].(available := lot.floors[k].available - multiset{t.spot})],
         spots := lot.spots[t.spot := lot.spots[t.spot].(occupied := true, vehicle := Some(v))],
         active := lot.active[v.license := t])
  }

  /** The loop of `parkVehicle` from floor index `from` onwards. */
  ghost function ParkFrom(lot: Lot, v: Vehicle, now: int, from: nat): (r: (Lot, Result<Ticket, LotError>))
    requires WellFormed(lot) && from <= |lot.floors|
    ensures WellFormed(r.0)
    ensures r.1.Success? ==> exists k :: ClaimedAt(lot, v, now, from, k, r.0, r.1.value)
    ensures r.1.Failure? ==>
      && r.0 == lot
      && r.1.error == NoSpotAvailable(v.kind)
      && forall j :: from <= j < |lot.floors| ==> NoneQualifies(lot.floors[j], lot.spots, v)
    decreases |lot.floors| - from
  {
    if from == |lot.floors| then (lot, Failure(NoSpotAvailable(v.kind)))
    else
      var (found, floor') := GetAvailableSpot(lot.floors[from], lot.spots, v);
      match found
      case None =>
        var lot1 := lot.(floors := lot.floors[from := floor']);
        assert lot1 == lot;
        var r := ParkFrom(lot1, v, now, from + 1);
        if r.1.Success? then
          var k :| ClaimedAt(lot, v, now, from + 1, k, r.0, r.1.value);
          assert ClaimedAt(lot, v, now, from, k, r.0, r.1.value);
          r
        else r
      case Some(s) =>
        // The search has just seen the spot free, so the claim succeeds.
        var (_, claimed) := AssignVehicle(lot.spots[s], v);
        var t := Ticket(v, s, now, None);
        var lot' := Lot(lot.floors[from := floor'], lot.spots[s := claimed], lot.active[v.license := t], lot.strategy);
        ClaimOnFirstFloor(lot, v, now, from, floor', lot', t);
        (lot', Success(t))
  }

  lemma ClaimOnFirstFloor(lot: Lot, v: Vehicle, now: int, from: nat, floor': Floor, lot': Lot, t: Ticket)
    requires WellFormed(lot) && from < |lot.floors|
    requires GetAvailableSpot(lot.floors[from], lot.spots, v) == (Some(t.spot), floor')
    requires t == Ticket(v, t.spot, now, None)
    requires lot' == Lot(lot.floors[from := floor'],
                         lot.spots[t.spot := AssignVehicle(lot.spots[t.spot], v).1],
                         lot.active[v.license := t], lot.strategy)
    ensures ClaimedAt(lot, v, now, from, from, lot', t)
    ensures WellFormed(lot')
  {
    forall i | 0 <= i < |lot'.floors|
      ensures RefsIn(lot'.floors[i].available, lot'.spots)
    {
      assert lot'.floors[i].available <= lot.floors[i].available;
    }
  }

  /** `parkVehicle`: the first floor, in list order, whose search yields a
      spot supplies it; the spot is claimed and a ticket is stored under the
      licence, replacing any ticket already stored there. */
  ghost function ParkVehicle(lot: Lot, v: Vehicle, now: int): (r: (Lot, Result<Ticket, LotError>))
    requires WellFormed(lot)
    ensures WellFormed(r.0)
    ensures r.1.Success? ==> exists k :: ClaimedAt(lot, v, now, 0, k, r.0, r.1.value)
    ensures r.1.Failure? ==>
      && r.0 == lot
      && r.1.error == NoSpotAvailable(v.kind)
      && forall j :: 0 <= j < |lot.floors| ==> NoneQualifies(lot.floors[j], lot.spots, v)
  {
    ParkFrom(lot, v, now, 0)
  }

  /** The fee charged for a closed ticket under the lot's strategy. */
  function Charge(strategy: FeeStrategy, t: Ticket): int
    requires t.exit.Some?
  {
    FeeTenths(strategy, t.vehicle.kind, t.exit.value - t.entry)
  }

  /** `unparkVehicle`: removes the licence's ticket, frees its spot, offers
      the spot back to the first floor whose number matches the spot's floor
      number (to none if no floor matches), closes the ticket and charges. */
  function UnparkVehicle(lot: Lot, license: string, now: int): (r: (Lot, Result<Receipt, LotError>))
    requires WellFormed(lot)
    ensures WellFormed(r.0)
    ensures license !in lot.active ==> r.0 == lot && r.1 == Failure(TicketNotFound(license))
    ensures license in lot.active ==>
      var t := lot.active[license];
      && r.0.strategy == lot.strategy
      && r.0.active == lot.active - {license}
      && |r.0.spots| == |lot.spots|
      && IsAvailable(r.0.spots[t.spot]) && r.0.spots[t.spot].vehicle.None?
      && SameSpot(r.0.spots[t.spot], lot.spots[t.spot])
      && (forall s :: 0 <= s < |lot.spots| && s != t.spot ==> r.0.spots[s] == lot.spots[s])
      && |r.0.floors| == |lot.floors|
      && (match HomeFloor(lot.floors, lot.spots[t.spot].floor)
          case None => r.0.floors == lot.floors
          case Some(h) =>
            && r.0.floors[h].number == lot.floors[h].number
            && r.0.floors[h].allSpots == lot.floors[h].allSpots
            && r.0.floors[h].available == lot.floors[h].available + multiset{t.spot}
            && forall j :: 0 <= j < |lot.floors| && j != h ==> r.0.floors[j] == lot.floors[j])
      && r.1.Success?
      && r.1.value.ticket == t.(exit := Some(now))
      && r.1.value.fee == FeeTenths(lot.strategy, t.vehicle.kind, now - t.entry)
  {
    if license !in lot.active then (lot, Failure(TicketNotFound(license)))
    else
      var t := lot.active[license];
      var spots' := lot.spots[t.spot := RemoveVehicle(lot.spots[t.spot])];
      var floors' :=
        match HomeFloor(lot.floors, lot.spots[t.spot].floor)
        case None => lot.floors
        case Some(h) => lot.floors[h := ReleaseSpot(lot.floors[h], t.spot)];
      var closed := t.(exit := Some(now));
      (Lot(floors', spots', lot.active - {license}, lot.strategy), Success(Receipt(closed, Charge(lot.strategy, closed))))
  }
}
