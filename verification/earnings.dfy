/** Earnings derivation: the total and the per-ride earnings a driver sees,
    recomputed from the fetched bookings on every refresh and never stored.
    Only a booking whose joined ride has completion flag exactly `true`
    contributes, and it contributes `seats booked × ride price`. */
module Earnings {
  import opened Wrappers
  import opened Collections
  import opened Records

  /** The columns of a booking's parent ride that the earnings query joins in. */
  datatype RideRef = RideRef(
    id: RideId,
    driverId: DriverId,
    price: int,
    status: RideStatus,
    completed: Option<bool>)

  /** A fetched booking with its joined parent ride (absent if the join found none). */
  datatype JoinedBooking = JoinedBooking(booking: Booking, ride: Option<RideRef>)

  /** The booking's joined ride is present and its completion flag is exactly `true`. */
  predicate Qualifies(b: JoinedBooking) {
    b.ride.Some? && b.ride.value.completed == Some(true)
  }

  /** What one booking adds to the driver's earnings. */
  function Contribution(b: JoinedBooking): int {
    if Qualifies(b) then b.booking.seatsBooked * b.ride.value.price else 0
  }

  /** Total earnings: a left fold over the bookings in fetch order, starting at 0. */
  function TotalEarnings(bs: seq<JoinedBooking>): int
    decreases |bs|
  {
    if |bs| == 0 then 0
    else TotalEarnings(bs[..|bs| - 1]) + Contribution(bs[|bs| - 1])
  }

  /** Reference definition of one ride's earnings: the sum of `seats × price`
      over the qualifying bookings whose `ride_id` is `r`. */
  function Earned(bs: seq<JoinedBooking>, r: RideId): int
    decreases |bs|
  {
    if |bs| == 0 then 0
    else
      var b := bs[|bs| - 1];
      Earned(bs[..|bs| - 1], r) + (if b.booking.rideId == r && Qualifies(b) then b.booking.seatsBooked * b.ride.value.price else 0)
  }

  /** The `ride_id`s of the qualifying bookings. */
  function QualifyingIds(bs: seq<JoinedBooking>): set<RideId> {
    set b | b in bs && Qualifies(b) :: b.booking.rideId
  }

  /** The first pass over the fetched rides: every ride id gets the entry 0. */
  function ZeroFor(rides: seq<Ride>): (m: map<RideId, int>)
    ensures m.Keys == RideIds(rides)
    ensures forall r :: r in m ==> m[r] == 0
    decreases |rides|
  {
    if |rides| == 0 then map[]
    else
      var prefix := rides[..|rides| - 1];
      assert rides == prefix + [rides[|rides| - 1]];
      ZeroFor(prefix)[rides[|rides| - 1].id := 0]
  }

  /** The second pass over the bookings: each qualifying booking adds its
      contribution to the entry under its `ride_id`, a missing entry read as 0. */
  function Accumulate(bs: seq<JoinedBooking>, init: map<RideId, int>): (m: map<RideId, int>)
    ensures m.Keys == init.Keys + QualifyingIds(bs)
    ensures forall r :: Lookup(m, r) == Lookup(init, r) + Earned(bs, r)
    decreases |bs|
  {
    if |bs| == 0 then init
    else
      var prefix := bs[..|bs| - 1];
      var b := bs[|bs| - 1];
      assert bs == prefix + [b];
      var m0 := Accumulate(prefix, init);
      if Qualifies(b) then m0[b.booking.rideId := Lookup(m0, b.booking.rideId) + Contribution(b)]
      else m0
  }

  /** The per-ride earnings map: every fetched ride has an entry, and every
      entry holds that ride's earnings by the reference definition. */
  function RideEarnings(rides: seq<Ride>, bs: seq<JoinedBooking>): (m: map<RideId, int>)
    ensures forall x :: x in rides ==> x.id in m
    ensures forall r :: r in m <==> r in RideIds(rides) || r in QualifyingIds(bs)
    ensures forall r :: r in m ==> m[r] == Earned(bs, r)
  {
    Accumulate(bs, ZeroFor(rides))
  }

  /** A ride with no qualifying booking has earned nothing, whatever else is booked on it. */
  lemma {:induction false} EarnedWithoutQualifying(bs: seq<JoinedBooking>, r: RideId)
    requires r !in QualifyingIds(bs)
    ensures Earned(bs, r) == 0
    decreases |bs|
  {
    if |bs| > 0 {
      var prefix := bs[..|bs| - 1];
      assert bs == prefix + [bs[|bs| - 1]];
      assert QualifyingIds(prefix) <= QualifyingIds(bs);
      EarnedWithoutQualifying(prefix, r);
    }
  }

  /** A non-zero total needs a qualifying booking; with non-negative seats
      and prices the total is non-negative. */
  lemma {:induction false} TotalNeedsQualifying(bs: seq<JoinedBooking>)
    ensures TotalEarnings(bs) != 0 ==> exists i :: 0 <= i < |bs| && Qualifies(bs[i])
    ensures (forall i :: 0 <= i < |bs| ==> Contribution(bs[i]) >= 0) ==> TotalEarnings(bs) >= 0
    decreases |bs|
  {
    if |bs| > 0 {
      var prefix := bs[..|bs| - 1];
      TotalNeedsQualifying(prefix);
      assert forall i :: 0 <= i < |prefix| ==> prefix[i] == bs[i];
    }
  }

  /** The total of two batches of bookings is the sum of their totals. */
  lemma {:induction false} TotalAppend(a: seq<JoinedBooking>, c: seq<JoinedBooking>)
    ensures TotalEarnings(a + c) == TotalEarnings(a) + TotalEarnings(c)
    decreases |c|
  {
    if |c| > 0 {
      assert (a + c)[..|a + c| - 1] == a + c[..|c| - 1];
      TotalAppend(a, c[..|c| - 1]);
    } else {
      assert a + c == a;
    }
  }

  /** Bookings whose joined ride is missing or has flag `null` or `false` change
      neither the total nor the per-ride map, whatever their seat counts. */
  lemma {:induction false} UnqualifiedAddNothing(a: seq<JoinedBooking>, c: seq<JoinedBooking>, init: map<RideId, int>)
    requires forall b :: b in c ==> !Qualifies(b)
    ensures TotalEarnings(a + c) == TotalEarnings(a)
    ensures Accumulate(a + c, init) == Accumulate(a, init)
    decreases |c|
  {
    if |c| == 0 {
      assert a + c == a;
    } else {
      var c' := c[..|c| - 1];
      assert (a + c)[..|a + c| - 1] == a + c';
      assert c[|c| - 1] in c;
      UnqualifiedAddNothing(a, c', init);
    }
  }

  /** One step of the total: the last booking's contribution is added. */
  lemma TotalStep(bs: seq<JoinedBooking>)
    requires |bs| > 0
    ensures TotalEarnings(bs) == TotalEarnings(bs[..|bs| - 1]) + Contribution(bs[|bs| - 1])
  {
  }

  /** One step of the per-ride pass: a qualifying last booking adds to its entry. */
  lemma AccumulateStep(bs: seq<JoinedBooking>, init: map<RideId, int>, id: RideId, c: int)
    requires |bs| > 0 && id == bs[|bs| - 1].booking.rideId && c == Contribution(bs[|bs| - 1])
    ensures Qualifies(bs[|bs| - 1]) ==>
      Accumulate(bs, init) == Accumulate(bs[..|bs| - 1], init)[id := Lookup(Accumulate(bs[..|bs| - 1], init), id) + c]
    ensures !Qualifies(bs[|bs| - 1]) ==> Accumulate(bs, init) == Accumulate(bs[..|bs| - 1], init)
  {
  }

  /** Additivity: the per-ride entries add up to the total, because each
      qualifying booking adds the same amount to both, exactly once. */
  lemma {:induction false} PerRideSumsToTotal(bs: seq<JoinedBooking>, init: map<RideId, int>)
    requires forall r :: r in init ==> init[r] == 0
    ensures SumValues(Accumulate(bs, init)) == TotalEarnings(bs)
    decreases |bs|
  {
    if |bs| == 0 {
      SumValuesZero(init);
    } else {
      var b := bs[|bs| - 1];
      PerRideSumsToTotal(bs[..|bs| - 1], init);
      TotalStep(bs);
      AccumulateStep(bs, init, b.booking.rideId, Contribution(b));
      if Qualifies(b) {
        SumValuesAdd(Accumulate(bs[..|bs| - 1], init), Accumulate(bs, init), b.booking.rideId, Contribution(b));
      }
    }
  }

  /** The derived map sums to the derived total. */
  lemma RideEarningsSumToTotal(rides: seq<Ride>, bs: seq<JoinedBooking>)
    ensures SumValues(RideEarnings(rides, bs)) == TotalEarnings(bs)
  {
    PerRideSumsToTotal(bs, ZeroFor(rides));
  }

  /** A ride priced 500 with bookings of 2 and 1 seats: once completed it has
      earned 1500; while unresolved it has earned nothing. */
  lemma TwoBookingsExample()
    ensures
      var x := Ride("r", "d", "A", "B", 500, 4, 1, "t", Completed, Some(true));
      var b1 := Booking("b1", "r", "c1", 2, Confirmed, "p1");
      var b2 := Booking("b2", "r", "c2", 1, Confirmed, "p2");
      var done := RideRef("r", "d", 500, Completed, Some(true));
      var open := RideRef("r", "d", 500, Active, None);
      && RideEarnings([x], [JoinedBooking(b1, Some(done)), JoinedBooking(b2, Some(done))])["r"] == 1500
      && TotalEarnings([JoinedBooking(b1, Some(done)), JoinedBooking(b2, Some(done))]) == 1500
      && RideEarnings([x.(status := Active, completed := None)], [JoinedBooking(b1, Some(open)), JoinedBooking(b2, Some(open))])["r"] == 0
  {
    var done := RideRef("r", "d", 500, Completed, Some(true));
    var b1 := JoinedBooking(Booking("b1", "r", "c1", 2, Confirmed, "p1"), Some(done));
    var b2 := JoinedBooking(Booking("b2", "r", "c2", 1, Confirmed, "p2"), Some(done));
    assert [b1, b2][..1] == [b1];
    assert [b1][..0] == [];
  }
}
