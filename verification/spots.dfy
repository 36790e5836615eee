/** Vehicles, parking spots and the compatibility policy between them
    (ParkingLotMain.java, sections 1-4 and the `allowedTypes` table). */
module Spots {
  import opened Wrappers

  datatype VehicleType = Car | Bike | Truck

  /** The three `ParkingSpot` subclasses, identified by their spot type. */
  datatype SpotType = CompactSpot | LargeSpot | BikeSpot

  datatype Vehicle = Vehicle(license: string, kind: VehicleType)

  /** A parking spot: identity and location are fixed at construction,
      `occupied` and `vehicle` are the spot's mutable state. */
  datatype Spot = Spot(
    id: string,
    distance: int,
    kind: SpotType,
    floor: int,
    occupied: bool,
    vehicle: Option<Vehicle>)

  /** Two spot values describe the same physical spot (everything but the
      occupancy state agrees). */
  predicate SameSpot(a: Spot, b: Spot) {
    a.id == b.id && a.distance == b.distance && a.kind == b.kind && a.floor == b.floor
  }

  /** The occupancy flag and the held vehicle agree. */
  predicate Coherent(s: Spot) {
    s.occupied <==> s.vehicle.Some?
  }

  /** A spot as the factory creates it: free and holding nothing. */
  function CreateSpot(kind: SpotType, id: string, distance: int, floor: int): (s: Spot)
    ensures !s.occupied && s.vehicle.None? && Coherent(s)
    ensures s.kind == kind && s.id == id && s.distance == distance && s.floor == floor
  {
    Spot(id, distance, kind, floor, false, None)
  }

  /** `isAvailable`: the spot is not occupied. On a coherent spot this means
      exactly that it holds no vehicle. */
  predicate IsAvailable(s: Spot)
    ensures Coherent(s) ==> (IsAvailable(s) <==> s.vehicle.None?)
  {
    !s.occupied
  }

  /** `assignVehicle`: claims the spot for `v` when it is free; reports
      whether the claim happened. */
  function AssignVehicle(s: Spot, v: Vehicle): (r: (bool, Spot))
    ensures r.0 <==> IsAvailable(s)
    ensures r.0 ==> r.1.occupied && r.1.vehicle == Some(v) && SameSpot(r.1, s)
    ensures !r.0 ==> r.1 == s
    ensures Coherent(r.1) <==> Coherent(s) || r.0
  {
    if s.occupied then (false, s)
    else (true, s.(occupied := true, vehicle := Some(v)))
  }

  /** `removeVehicle`: unconditionally frees the spot. */
  function RemoveVehicle(s: Spot): (r: Spot)
    ensures IsAvailable(r) && r.vehicle.None? && Coherent(r)
    ensures SameSpot(r, s)
  {
    s.(occupied := false, vehicle := None)
  }

  /** Claiming a free, empty spot and then freeing it gives back the spot
      exactly as it was. */
  lemma RemoveUndoesAssign(s: Spot, v: Vehicle)
    requires IsAvailable(s) && Coherent(s)
    ensures AssignVehicle(s, v).0
    ensures RemoveVehicle(AssignVehicle(s, v).1) == s
  {
  }

  /** The `allowedTypes` policy table of `ParkingLot`. Every vehicle type is
      permitted the one spot type it fits; only cars are permitted a second,
      large spots, and bike spots are reserved for bikes. */
  function AllowedTypes(v: VehicleType): (r: set<SpotType>)
    ensures EffectiveSpotType(v) in r
    ensures r - {EffectiveSpotType(v)} == (if v == Car then {LargeSpot} else {})
    ensures BikeSpot in r <==> v == Bike
  {
    match v
    case Car => {CompactSpot, LargeSpot}
    case Bike => {BikeSpot}
    case Truck => {LargeSpot}
  }

  /** The three `canFitVehicle` overrides: each spot type fits exactly one
      vehicle type, the one whose effective spot type it is. */
  predicate CanFitVehicle(spot: SpotType, v: VehicleType)
    ensures CanFitVehicle(spot, v) <==> spot == EffectiveSpotType(v)
  {
    match spot
    case CompactSpot => v == Car
    case LargeSpot => v == Truck
    case BikeSpot => v == Bike
  }

  /** The one spot type that actually accepts each vehicle type. */
  function EffectiveSpotType(v: VehicleType): SpotType {
    match v
    case Car => CompactSpot
    case Bike => BikeSpot
    case Truck => LargeSpot
  }

  /** The floor search accepts a spot type for a vehicle type when the policy
      table permits it and the spot can physically fit the vehicle. */
  predicate Accepts(spot: SpotType, v: VehicleType)
    ensures Accepts(spot, v) <==> spot == EffectiveSpotType(v)
  {
    spot in AllowedTypes(v) && CanFitVehicle(spot, v)
  }

  /** The combined rule is one-to-one even though the policy table is not:
      cars are permitted in large spots but never fit there. */
  lemma CarsNeverTakeLargeSpots()
    ensures LargeSpot in AllowedTypes(Car)
    ensures !Accepts(LargeSpot, Car)
    ensures forall v :: Accepts(LargeSpot, v) <==> v == Truck
  {
  }
}
