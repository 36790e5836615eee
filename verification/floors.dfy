/** `ParkingFloor`: a floor number, its spots, and an availability index
    ordered by distance from the gate (ParkingLotMain.java, section 8).

    Spots live in one inventory shared by the whole lot (`seq<Spot>`); a floor
    refers to them by position (`SpotRef`), as the Java floor refers to shared
    spot objects. The `PriorityQueue` is modelled by the multiset of its
    entries; `Poll` removes some entry of least distance, leaving the order
    among equal distances unspecified, as `PriorityQueue` does. */
module Floors {
  import opened Wrappers
  import opened Spots

  type SpotRef = nat

  datatype Floor = Floor(number: int, allSpots: seq<SpotRef>, available: multiset<SpotRef>)

  /** The constructor puts every spot of the floor into the index. */
  function NewFloor(number: int, allSpots: seq<SpotRef>): (f: Floor)
    ensures f.number == number && f.allSpots == allSpots
    ensures f.available == multiset(allSpots)
  {
    Floor(number, allSpots, multiset(allSpots))
  }

  /** Every entry of `q` names a spot of the inventory. */
  ghost predicate RefsIn(q: multiset<SpotRef>, spots: seq<Spot>) {
    forall x :: x in q ==> x < |spots|
  }

  function Dist(spots: seq<Spot>, s: SpotRef): int
    requires s < |spots|
  {
    spots[s].distance
  }

  /** The test `getAvailableSpot` applies to each polled entry: the spot is
      free, its type is permitted for the vehicle and it can fit the vehicle. */
  predicate Qualifies(spots: seq<Spot>, s: SpotRef, v: Vehicle) {
    && s < |spots|
    && IsAvailable(spots[s])
    && spots[s].kind in AllowedTypes(v.kind)
    && CanFitVehicle(spots[s].kind, v.kind)
  }

  /** `s` is an entry of `q` at least as close as every other entry. */
  ghost predicate IsNearest(spots: seq<Spot>, q: multiset<SpotRef>, s: SpotRef)
    requires RefsIn(q, spots)
  {
    s in q && forall x :: x in q ==> Dist(spots, s) <= Dist(spots, x)
  }

  lemma {:induction false} NearestExists(spots: seq<Spot>, q: multiset<SpotRef>)
    requires RefsIn(q, spots) && |q| > 0
    ensures exists s :: IsNearest(spots, q, s)
    decreases |q|
  {
    var y :| y in q;
    var rest := q - multiset{y};
    assert q == rest + multiset{y};
    if |rest| == 0 {
      assert q == multiset{y};
      assert IsNearest(spots, q, y);
    } else {
      NearestExists(spots, rest);
      var s :| IsNearest(spots, rest, s);
      if Dist(spots, y) <= Dist(spots, s) {
        assert IsNearest(spots, q, y);
      } else {
        assert forall x :: x in q ==> x == y || x in rest;
        assert IsNearest(spots, q, s);
      }
    }
  }

  /** `PriorityQueue.poll`: some entry of least distance. */
  ghost function Poll(spots: seq<Spot>, q: multiset<SpotRef>): (s: SpotRef)
    requires RefsIn(q, spots) && |q| > 0
    ensures s in q && s < |spots|
    ensures forall x :: x in q ==> Dist(spots, s) <= Dist(spots, x)
  {
    NearestExists(spots, q);
    var s :| IsNearest(spots, q, s);
    s
  }

  /** The loop of `getAvailableSpot`: poll entries in order of distance,
      setting aside the rejected ones in `buffer`, until one qualifies or the
      queue is empty; then put the buffer back. Returns the selected spot and
      the queue's final contents. */
  ghost function PollLoop(spots: seq<Spot>, v: Vehicle, queue: multiset<SpotRef>, buffer: multiset<SpotRef>)
    : (r: (Option<SpotRef>, multiset<SpotRef>))
    requires RefsIn(queue, spots)
    ensures r.0.Some? ==>
      && r.0.value in queue
      && Qualifies(spots, r.0.value, v)
      && (forall x :: x in queue && Qualifies(spots, x, v) ==> Dist(spots, r.0.value) <= Dist(spots, x))
      && r.1 + multiset{r.0.value} == queue + buffer
    ensures r.0.None? ==>
      && (forall x :: x in queue ==> !Qualifies(spots, x, v))
      && r.1 == queue + buffer
    decreases |queue|
  {
    if |queue| == 0 then (None, buffer)
    else
      var s := Poll(spots, queue);
      var rest := queue - multiset{s};
      assert rest + multiset{s} == queue;
      if Qualifies(spots, s, v) then (Some(s), rest + buffer)
      else PollLoop(spots, v, rest, buffer + multiset{s})
  }

  lemma TakeBack(a: multiset<SpotRef>, b: multiset<SpotRef>, s: SpotRef)
    requires a + multiset{s} == b
    ensures a == b - multiset{s}
  {
    forall x ensures a[x] == (b - multiset{s})[x] {
      assert b[x] == a[x] + multiset{s}[x];
    }
  }

  /** No entry of the index is accepted for `v`. */
  ghost predicate NoneQualifies(f: Floor, spots: seq<Spot>, v: Vehicle) {
    forall x :: x in f.available ==> !Qualifies(spots, x, v)
  }

  /** `s` is an accepted entry of the index of least distance among accepted
      entries. */
  ghost predicate NearestQualifying(f: Floor, spots: seq<Spot>, v: Vehicle, s: SpotRef)
    requires RefsIn(f.available, spots)
  {
    && s in f.available
    && Qualifies(spots, s, v)
    && forall x :: x in f.available && Qualifies(spots, x, v) ==> Dist(spots, s) <= Dist(spots, x)
  }

  /** `getAvailableSpot`: the nearest entry that is free, permitted and
      fitting. Only that entry leaves the index; when nothing qualifies the
      floor is unchanged. */
  ghost function GetAvailableSpot(f: Floor, spots: seq<Spot>, v: Vehicle): (r: (Option<SpotRef>, Floor))
    requires RefsIn(f.available, spots)
    ensures r.0.Some? ==>
      && NearestQualifying(f, spots, v, r.0.value)
      && r.1 == f.(available := f.available - multiset{r.0.value})
    ensures r.0.None? ==> NoneQualifies(f, spots, v) && r.1 == f
  {
    var (found, index) := PollLoop(spots, v, f.available, multiset{});
    if found.Some? then
      TakeBack(index, f.available, found.value);
      (found, f.(available := index))
    else (found, f.(available := index))
  }

  /** `releaseSpot`: offers the spot back to the index. */
  function ReleaseSpot(f: Floor, s: SpotRef): (r: Floor)
    ensures r.number == f.number && r.allSpots == f.allSpots
    ensures r.available[s] == f.available[s] + 1
    ensures forall x :: x != s ==> r.available[x] == f.available[x]
  {
    f.(available := f.available + multiset{s})
  }

  /** Releasing the spot a search has just handed out restores the floor. */
  lemma ReleaseUndoesSearch(f: Floor, spots: seq<Spot>, v: Vehicle)
    requires RefsIn(f.available, spots)
    requires GetAvailableSpot(f, spots, v).0.Some?
    ensures var (found, f') := GetAvailableSpot(f, spots, v);
            ReleaseSpot(f', found.value) == f
  {
    var (found, f') := GetAvailableSpot(f, spots, v);
    assert f'.available + multiset{found.value} == f.available;
  }
}
