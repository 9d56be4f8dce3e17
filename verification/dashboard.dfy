/** The driver dashboard over an in-memory store: the fetch that loads the
    driver, their rides and the earnings bookings; the mutations the page
    offers (post, complete, cancel, re-price a ride, review a customer); the
    booking summary; and the buttons that decide which mutations are offered. */
module Dashboard {
  import opened Wrappers
  import opened Collections
  import opened Records
  import opened Earnings

  /** Why a fetch or a mutation failed. */
  datatype Fault =
    | NoSingleDriverRow   // `.single()` on the drivers table matched zero rows or several
    | RideIdTaken

  /** The notice a handler ends with. */
  datatype Notice =
    | Succeeded
    | Skipped          // the handler returned early: no driver loaded, no customer selected
    | NotOffered       // the page shows no button for this action
    | InvalidPrice     // the price did not parse as a number
    | AlreadyReviewed
    | Failed(fault: Fault)

  /** The store after a handler, and how the handler ended. */
  datatype Step = Step(store: Store, notice: Notice)

  /** What the page shows after loading. */
  datatype View = View(driver: Driver, rides: seq<Ride>, total: int, perRide: map<RideId, int>)

  /** The add-ride form, its numeric fields already parsed. */
  datatype RideForm = RideForm(origin: string, destination: string, price: int, totalSeats: int, departure: string)

  /** One line of the booking summary. */
  datatype SummaryRow = SummaryRow(id: BookingId, seatsBooked: int, status: BookingStatus, customerPhone: string)

  // ---------------------------------------------------------------------
  // Queries
  // ---------------------------------------------------------------------

  /** `.single()`: the one row that matches, or nothing when zero rows or
      several rows match. */
  function Single<T(!new)>(p: T -> bool, s: seq<T>): (r: Option<T>)
    ensures r.Some? <==> |Filter(p, s)| == 1
    ensures r.Some? ==> r.value in s && p(r.value) && forall x :: x in s && p(x) ==> x == r.value
    ensures (forall x :: x in s ==> !p(x)) ==> r.None?
  {
    var rows := Filter(p, s);
    if |rows| == 1 then
      assert rows[0] in rows;
      Some(rows[0])
    else
      None
  }

  function ByUser(u: UserId): Driver -> bool {
    (x: Driver) => x.userId == u
  }

  function ByDriverId(id: DriverId): Driver -> bool {
    (x: Driver) => x.id == id
  }

  function ForBooking(id: BookingId): Review -> bool {
    (rv: Review) => rv.bookingId == id
  }

  /** The rides of driver `d`. */
  function RidesOf(s: Store, d: DriverId): seq<Ride> {
    Filter((x: Ride) => x.driverId == d, s.rides)
  }

  /** The ride a booking's `ride_id` refers to: the first row with that id. */
  function FindRide(rides: seq<Ride>, id: RideId): (r: Option<Ride>)
    ensures r.Some? ==> r.value in rides && r.value.id == id
    ensures r.None? ==> id !in RideIds(rides)
    ensures UniqueRideIds(rides) ==> forall x :: x in rides && x.id == id ==> r == Some(x)
    decreases |rides|
  {
    if |rides| == 0 then None
    else if rides[0].id == id then Some(rides[0])
    else
      assert forall x :: x in rides <==> x == rides[0] || x in rides[1..];
      FindRide(rides[1..], id)
  }

  function RefOf(x: Ride): RideRef {
    RideRef(x.id, x.driverId, x.price, x.status, x.completed)
  }

  /** The booking's parent ride belongs to `d` and its completion flag is `true`. */
  predicate EarningsEligible(s: Store, d: DriverId, b: Booking) {
    match FindRide(s.rides, b.rideId)
    case None => false
    case Some(x) => x.driverId == d && x.completed == Some(true)
  }

  /** A booking with its parent ride joined in. */
  function Join(s: Store, b: Booking): JoinedBooking {
    JoinedBooking(b, match FindRide(s.rides, b.rideId) case None => None case Some(x) => Some(RefOf(x)))
  }

  /** The earnings query's filter as a predicate value. */
  function Eligible(s: Store, d: DriverId): Booking -> bool {
    (b: Booking) => EarningsEligible(s, d, b)
  }

  /** What one booking is worth to driver `d`, read straight from the store:
      seats × the price of its ride when that ride is `d`'s and completed. */
  function BookingValue(s: Store, d: DriverId, b: Booking): int {
    match FindRide(s.rides, b.rideId)
    case None => 0
    case Some(x) => if x.driverId == d && x.completed == Some(true) then b.seatsBooked * x.price else 0
  }

  /** Reference total: the worth of every booking in the store. */
  function StoreTotal(s: Store, d: DriverId, bs: seq<Booking>): int
    decreases |bs|
  {
    if |bs| == 0 then 0 else StoreTotal(s, d, bs[..|bs| - 1]) + BookingValue(s, d, bs[|bs| - 1])
  }

  /** Reference earnings of ride `x`: the worth of the store's bookings with `ride_id` `x`. */
  function StoreEarned(s: Store, d: DriverId, bs: seq<Booking>, x: RideId): int
    decreases |bs|
  {
    if |bs| == 0 then 0
    else StoreEarned(s, d, bs[..|bs| - 1], x) + (if bs[|bs| - 1].rideId == x then BookingValue(s, d, bs[|bs| - 1]) else 0)
  }

  /** A joined eligible booking contributes exactly its worth. */
  lemma JoinedContribution(s: Store, d: DriverId, b: Booking)
    requires EarningsEligible(s, d, b)
    ensures Qualifies(Join(s, b)) && Contribution(Join(s, b)) == BookingValue(s, d, b)
  {
  }

  /** The inner join over `bs`: the eligible bookings, in store order, each once,
      with their ride joined in; their earnings equal the reference sums. */
  function JoinEligible(s: Store, d: DriverId, bs: seq<Booking>): (r: seq<JoinedBooking>)
    ensures |r| == |Filter(Eligible(s, d), bs)|
    ensures forall i :: 0 <= i < |r| ==> r[i] == Join(s, Filter(Eligible(s, d), bs)[i])
    ensures TotalEarnings(r) == StoreTotal(s, d, bs)
    ensures forall x :: Earned(r, x) == StoreEarned(s, d, bs, x)
    decreases |bs|
  {
    if |bs| == 0 then []
    else
      var b := bs[|bs| - 1];
      var rest := JoinEligible(s, d, bs[..|bs| - 1]);
      if EarningsEligible(s, d, b) then
        JoinedContribution(s, d, b);
        assert (rest + [Join(s, b)])[..|rest|] == rest;
        rest + [Join(s, b)]
      else
        rest
  }

  /** The earnings query: an inner join of bookings with their rides, kept
      when the ride is `d`'s and its completion flag is `true`. */
  function EarningsBookings(s: Store, d: DriverId): (r: seq<JoinedBooking>)
    ensures forall b :: b in s.bookings && EarningsEligible(s, d, b) ==> Join(s, b) in r
    ensures forall jb :: jb in r ==>
      && jb.booking in s.bookings
      && Qualifies(jb)
      && exists x :: x in s.rides && x.id == jb.booking.rideId && x.driverId == d && jb.ride == Some(RefOf(x))
    ensures TotalEarnings(r) == StoreTotal(s, d, s.bookings)
    ensures forall x :: Earned(r, x) == StoreEarned(s, d, s.bookings, x)
  {
    JoinEligibleMembers(s, d, s.bookings);
    JoinEligible(s, d, s.bookings)
  }

  /** Membership in the join: every eligible booking is there, joined, and
      everything there is an eligible booking, joined. */
  lemma JoinEligibleMembers(s: Store, d: DriverId, bs: seq<Booking>)
    ensures forall b :: b in bs && EarningsEligible(s, d, b) ==> Join(s, b) in JoinEligible(s, d, bs)
    ensures forall jb :: jb in JoinEligible(s, d, bs) ==>
      jb.booking in bs && EarningsEligible(s, d, jb.booking) && jb == Join(s, jb.booking)
  {
    var r := JoinEligible(s, d, bs);
    var kept := Filter(Eligible(s, d), bs);
    forall b | b in bs && EarningsEligible(s, d, b) ensures Join(s, b) in r {
      assert b in kept;
      var i :| 0 <= i < |kept| && kept[i] == b;
      assert r[i] == Join(s, b);
    }
    forall jb | jb in r ensures jb.booking in bs && EarningsEligible(s, d, jb.booking) && jb == Join(s, jb.booking) {
      var i :| 0 <= i < |r| && r[i] == jb;
      assert kept[i] in kept;
    }
  }

  /** `fetchDriverData`: load the driver row for user `u`, the driver's rides
      and the earnings bookings, and derive the total and per-ride earnings. */
  function FetchDriverData(s: Store, u: UserId): (r: Result<View, Fault>)
    ensures r.Success? <==> |Filter(ByUser(u), s.drivers)| == 1
    ensures r.Failure? ==> r.error == NoSingleDriverRow
    ensures r.Success? ==>
      && r.value.driver in s.drivers
      && r.value.driver.userId == u
      && (forall x :: x in s.drivers && x.userId == u ==> x == r.value.driver)
    ensures r.Success? ==> forall x :: x in r.value.rides <==> x in s.rides && x.driverId == r.value.driver.id
    ensures r.Success? ==> forall x :: x in r.value.rides ==> x.id in r.value.perRide
    ensures r.Success? ==> SumValues(r.value.perRide) == r.value.total
    ensures r.Success? ==> r.value.total == StoreTotal(s, r.value.driver.id, s.bookings)
    ensures r.Success? ==> forall x :: Lookup(r.value.perRide, x) == StoreEarned(s, r.value.driver.id, s.bookings, x)
  {
    match Single(ByUser(u), s.drivers)
    case None => Failure(NoSingleDriverRow)
    case Some(drv) =>
      var rides := RidesOf(s, drv.id);
      var bs := EarningsBookings(s, drv.id);
      RideEarningsSumToTotal(rides, bs);
      Success(View(drv, rides, TotalEarnings(bs), RideEarnings(rides, bs)))
  }

  /** The earnings figure shown on a ride's card: the map entry (0 if missing)
      when the ride's flag is truthy, otherwise 0. */
  function ShownEarnings(x: Ride, perRide: map<RideId, int>): (r: int)
    ensures r != 0 ==> x.completed == Some(true) && x.id in perRide && r == perRide[x.id]
  {
    if x.completed == Some(true) then Lookup(perRide, x.id) else 0
  }

  /** The statuses the booking summary lists. */
  predicate Listed(st: BookingStatus) {
    st == Confirmed || st == BookingCompleted
  }

  /** The booking summary's filter as a predicate value. */
  function SummaryListed(rideId: RideId): Booking -> bool {
    (b: Booking) => b.rideId == rideId && Listed(b.status)
  }

  function RowOf(b: Booking): SummaryRow {
    SummaryRow(b.id, b.seatsBooked, b.status, b.customerPhone)
  }

  /** `handleShowBookingSummary`: the confirmed and completed bookings of one
      ride, projected to id, seats, status and customer phone. */
  function BookingSummary(s: Store, rideId: RideId): (rows: seq<SummaryRow>)
    ensures |rows| == |Filter(SummaryListed(rideId), s.bookings)|
    ensures forall i :: 0 <= i < |rows| ==> rows[i] == RowOf(Filter(SummaryListed(rideId), s.bookings)[i])
    ensures forall b :: b in s.bookings && b.rideId == rideId && Listed(b.status) ==> RowOf(b) in rows
    ensures forall row :: row in rows ==>
      exists b :: b in s.bookings && b.rideId == rideId && Listed(b.status) && row == RowOf(b)
  {
    var kept := Filter(SummaryListed(rideId), s.bookings);
    var rows := seq(|kept|, i requires 0 <= i < |kept| => RowOf(kept[i]));
    assert forall b :: b in kept ==> RowOf(b) in rows by {
      forall b | b in kept ensures RowOf(b) in rows {
        var i :| 0 <= i < |kept| && kept[i] == b;
        assert rows[i] == RowOf(b);
      }
    }
    assert forall row :: row in rows ==> exists b :: b in kept && row == RowOf(b) by {
      forall row | row in rows ensures exists b :: b in kept && row == RowOf(b) {
        var i :| 0 <= i < |rows| && rows[i] == row;
        assert kept[i] in kept;
      }
    }
    rows
  }

  // ---------------------------------------------------------------------
  // Mutations
  // ---------------------------------------------------------------------

  /** Every ride row with id `id` takes the given status and flag. */
  function MarkRides(rides: seq<Ride>, id: RideId, st: RideStatus, flag: Option<bool>): seq<Ride> {
    seq(|rides|, i requires 0 <= i < |rides| =>
      if rides[i].id == id then rides[i].(status := st, completed := flag) else rides[i])
  }

  /** `handleAddRide`: insert a ride for the loaded driver. The database
      supplies the fresh id `newId` and the default status `active`; an id
      that is already taken makes the insert fail. */
  function AddRide(s: Store, driver: Option<Driver>, f: RideForm, newId: RideId): (st: Step)
    ensures driver.None? ==> st == Step(s, Skipped)
    ensures driver.Some? && newId in RideIds(s.rides) ==> st == Step(s, Failed(RideIdTaken))
    ensures driver.Some? && newId !in RideIds(s.rides) ==>
      && st.notice == Succeeded
      && |st.store.rides| == |s.rides| + 1
      && st.store.rides[..|s.rides|] == s.rides
      && st.store.(rides := s.rides) == s
      && var x := st.store.rides[|s.rides|];
         && x.id == newId && x.driverId == driver.value.id
         && x.origin == f.origin && x.destination == f.destination && x.departure == f.departure
         && x.price == f.price && x.totalSeats == f.totalSeats
         && x.availableSeats == x.totalSeats
         && x.status == Active && x.completed == None
  {
    match driver
    case None => Step(s, Skipped)
    case Some(d) =>
      if newId in RideIds(s.rides) then Step(s, Failed(RideIdTaken))
      else
        var x := Ride(newId, d.id, f.origin, f.destination, f.price, f.totalSeats, f.totalSeats, f.departure, Active, None);
        assert (s.rides + [x])[..|s.rides|] == s.rides;
        Step(s.(rides := s.rides + [x]), Succeeded)
  }

  /** `handleCompleteRide`: mark the ride completed and earnings-eligible,
      then read the loaded driver's counter (null read as 0) and write it
      back plus one. If the driver row is not unique the handler stops after
      the ride update, which stands. */
  function CompleteRide(s: Store, driver: Option<Driver>, rideId: RideId): (st: Step)
    ensures |st.store.rides| == |s.rides|
    ensures forall i :: 0 <= i < |s.rides| && s.rides[i].id == rideId ==>
      && st.store.rides[i].status == Completed
      && st.store.rides[i].completed == Some(true)
      && st.store.rides[i].(status := s.rides[i].status, completed := s.rides[i].completed) == s.rides[i]
    ensures forall i :: 0 <= i < |s.rides| && s.rides[i].id != rideId ==> st.store.rides[i] == s.rides[i]
    ensures st.store.bookings == s.bookings && st.store.reviews == s.reviews
    ensures driver.None? ==> st.notice == Succeeded && st.store.drivers == s.drivers
    ensures driver.Some? && |Filter(ByDriverId(driver.value.id), s.drivers)| != 1 ==>
      st.notice == Failed(NoSingleDriverRow) && st.store.drivers == s.drivers
    ensures driver.Some? && |Filter(ByDriverId(driver.value.id), s.drivers)| == 1 ==>
      && st.notice == Succeeded
      && |st.store.drivers| == |s.drivers|
      && (forall i :: 0 <= i < |s.drivers| && s.drivers[i].id == driver.value.id ==>
            && st.store.drivers[i].completedRides == Some(s.drivers[i].completedRides.GetOr(0) + 1)
            && st.store.drivers[i].(completedRides := s.drivers[i].completedRides) == s.drivers[i])
      && (forall i :: 0 <= i < |s.drivers| && s.drivers[i].id != driver.value.id ==>
            st.store.drivers[i] == s.drivers[i])
  {
    var s1 := s.(rides := MarkRides(s.rides, rideId, Completed, Some(true)));
    match driver
    case None => Step(s1, Succeeded)
    case Some(d) =>
      match Single(ByDriverId(d.id), s.drivers)
      case None => Step(s1, Failed(NoSingleDriverRow))
      case Some(row) =>
        var n := row.completedRides.GetOr(0) + 1;
        assert forall i :: 0 <= i < |s.drivers| && s.drivers[i].id == d.id ==> s.drivers[i] == row by {
          forall i | 0 <= i < |s.drivers| && s.drivers[i].id == d.id ensures s.drivers[i] == row {
            assert s.drivers[i] in s.drivers && ByDriverId(d.id)(s.drivers[i]);
          }
        }
        var drivers := seq(|s.drivers|, i requires 0 <= i < |s.drivers| =>
          if s.drivers[i].id == d.id then s.drivers[i].(completedRides := Some(n)) else s.drivers[i]);
        Step(s1.(drivers := drivers), Succeeded)
  }

  /** `handleCancelRide`: mark the ride cancelled and earnings-void, then
      (best effort) cancel every booking of that ride. `cleanup` says whether
      the booking update went through; the ride change stands either way. */
  function CancelRide(s: Store, rideId: RideId, cleanup: bool): (st: Step)
    ensures st.notice == Succeeded
    ensures |st.store.rides| == |s.rides|
    ensures forall i :: 0 <= i < |s.rides| && s.rides[i].id == rideId ==>
      && st.store.rides[i].status == Cancelled
      && st.store.rides[i].completed == Some(false)
      && st.store.rides[i].(status := s.rides[i].status, completed := s.rides[i].completed) == s.rides[i]
    ensures forall i :: 0 <= i < |s.rides| && s.rides[i].id != rideId ==> st.store.rides[i] == s.rides[i]
    ensures st.store.drivers == s.drivers && st.store.reviews == s.reviews
    ensures |st.store.bookings| == |s.bookings|
    ensures forall i :: 0 <= i < |s.bookings| && s.bookings[i].rideId != rideId ==>
      st.store.bookings[i] == s.bookings[i]
    ensures forall i :: 0 <= i < |s.bookings| && s.bookings[i].rideId == rideId ==>
      && st.store.bookings[i].(status := s.bookings[i].status) == s.bookings[i]
      && (cleanup ==> st.store.bookings[i].status == BookingCancelled)
      && (!cleanup ==> st.store.bookings[i] == s.bookings[i])
  {
    var s1 := s.(rides := MarkRides(s.rides, rideId, Cancelled, Some(false)));
    if cleanup then
      var bookings := seq(|s.bookings|, i requires 0 <= i < |s.bookings| =>
        if s.bookings[i].rideId == rideId then s.bookings[i].(status := BookingCancelled) else s.bookings[i]);
      Step(s1.(bookings := bookings), Succeeded)
    else
      Step(s1, Succeeded)
  }

  /** `handleEditRideSubmit`: `price` is the parsed input, `None` when it is
      not a number, in which case nothing is written. Otherwise only the
      price of the ride changes. */
  function EditPrice(s: Store, rideId: RideId, price: Option<int>): (st: Step)
    ensures price.None? ==> st == Step(s, InvalidPrice)
    ensures price.Some? ==>
      && st.notice == Succeeded
      && st.store.(rides := s.rides) == s
      && |st.store.rides| == |s.rides|
      && (forall i :: 0 <= i < |s.rides| && s.rides[i].id == rideId ==>
            && st.store.rides[i].price == price.value
            && st.store.rides[i].(price := s.rides[i].price) == s.rides[i])
      && (forall i :: 0 <= i < |s.rides| && s.rides[i].id != rideId ==> st.store.rides[i] == s.rides[i])
  {
    match price
    case None => Step(s, InvalidPrice)
    case Some(p) =>
      var rides := seq(|s.rides|, i requires 0 <= i < |s.rides| =>
        if s.rides[i].id == rideId then s.rides[i].(price := p) else s.rides[i]);
      Step(s.(rides := rides), Succeeded)
  }

  /** `handleSubmitReview`: look up the review of the selected booking with
      `.single()`; if one is found, abort; otherwise insert the new review. */
  function SubmitReview(s: Store, selected: Option<Booking>, driver: Option<Driver>, rating: int, text: string): (st: Step)
    ensures selected.None? ==> st == Step(s, Skipped)
    ensures selected.Some? && |Filter(ForBooking(selected.value.id), s.reviews)| == 1 ==>
      st == Step(s, AlreadyReviewed)
    ensures selected.Some? && |Filter(ForBooking(selected.value.id), s.reviews)| != 1 ==>
      && st.notice == Succeeded
      && st.store.(reviews := s.reviews) == s
      && |st.store.reviews| == |s.reviews| + 1
      && st.store.reviews[..|s.reviews|] == s.reviews
      && st.store.reviews[|s.reviews|].bookingId == selected.value.id
      && st.store.reviews[|s.reviews|].customerId == selected.value.userId
      && st.store.reviews[|s.reviews|].rating == rating
      && st.store.reviews[|s.reviews|].text == text
      && st.store.reviews[|s.reviews|].driverId == (if driver.Some? then Some(driver.value.id) else None)
  {
    match selected
    case None => Step(s, Skipped)
    case Some(b) =>
      match Single(ForBooking(b.id), s.reviews)
      case Some(_) => Step(s, AlreadyReviewed)
      case None =>
        var rv := Review(match driver case None => None case Some(d) => Some(d.id), b.userId, b.id, rating, text);
        assert (s.reviews + [rv])[..|s.reviews|] == s.reviews;
        Step(s.(reviews := s.reviews + [rv]), Succeeded)
  }

  // ---------------------------------------------------------------------
  // Properties
  // ---------------------------------------------------------------------

  /** Two rows with the same primary key are the same row. */
  lemma SameIdSameRide(rides: seq<Ride>, x: Ride, y: Ride)
    requires UniqueRideIds(rides)
    requires x in rides && y in rides && x.id == y.id
    ensures x == y
  {
    var i :| 0 <= i < |rides| && rides[i] == x;
    var j :| 0 <= j < |rides| && rides[j] == y;
    assert i == j;
  }

  /** A ride whose completion flag is not `true` (unresolved or cancelled)
      shows 0 in the derived per-ride earnings, whatever bookings it has;
      if it is one of the fetched rides it has an entry. */
  lemma UnresolvedRideEarnsNothing(s: Store, u: UserId, x: Ride)
    requires UniqueRideIds(s.rides)
    requires x in s.rides && x.completed != Some(true)
    requires FetchDriverData(s, u).Success?
    ensures Lookup(FetchDriverData(s, u).value.perRide, x.id) == 0
    ensures x.driverId == FetchDriverData(s, u).value.driver.id ==> x.id in FetchDriverData(s, u).value.perRide
  {
    var v := FetchDriverData(s, u).value;
    var d := v.driver.id;
    var bs := EarningsBookings(s, d);
    assert v.perRide == RideEarnings(RidesOf(s, d), bs);
    assert x.id !in QualifyingIds(bs) by {
      forall jb | jb in bs && Qualifies(jb) ensures jb.booking.rideId != x.id {
        var y :| y in s.rides && y.id == jb.booking.rideId && y.driverId == d && jb.ride == Some(RefOf(y));
        if jb.booking.rideId == x.id {
          SameIdSameRide(s.rides, x, y);
        }
      }
    }
    EarnedWithoutQualifying(bs, x.id);
  }

  /** The figure on a fetched ride's card is exactly its per-ride map entry:
      the card's own flag test never hides earnings the map holds. */
  lemma ShownEarningsMatchMap(s: Store, u: UserId, x: Ride)
    requires UniqueRideIds(s.rides)
    requires FetchDriverData(s, u).Success?
    requires x in FetchDriverData(s, u).value.rides
    ensures x.id in FetchDriverData(s, u).value.perRide
    ensures ShownEarnings(x, FetchDriverData(s, u).value.perRide) == FetchDriverData(s, u).value.perRide[x.id]
  {
    if x.completed != Some(true) {
      UnresolvedRideEarnsNothing(s, u, x);
    }
  }

  /** With at most one review per booking, `.single()` finds at most one row. */
  lemma {:induction false} AtMostOneReviewFound(reviews: seq<Review>, id: BookingId)
    requires OneReviewPerBooking(reviews)
    ensures |Filter(ForBooking(id), reviews)| <= 1
    decreases |reviews|
  {
    if |reviews| > 0 {
      var prefix := reviews[..|reviews| - 1];
      var last := reviews[|reviews| - 1];
      AtMostOneReviewFound(prefix, id);
      if last.bookingId == id {
        forall rv | rv in prefix ensures !ForBooking(id)(rv) {
          var k :| 0 <= k < |prefix| && prefix[k] == rv;
          assert reviews[k] == rv;
        }
        assert Filter(ForBooking(id), prefix) == [];
      }
    }
  }

  /** Under the one-review-per-booking invariant the guard is exact: a
      submission is refused if and only if the booking already has a review. */
  lemma ReviewGuardExact(s: Store, b: Booking)
    requires OneReviewPerBooking(s.reviews)
    ensures |Filter(ForBooking(b.id), s.reviews)| == 1 <==> exists rv :: rv in s.reviews && rv.bookingId == b.id
  {
    AtMostOneReviewFound(s.reviews, b.id);
    var rows := Filter(ForBooking(b.id), s.reviews);
    if exists rv :: rv in s.reviews && rv.bookingId == b.id {
      var rv :| rv in s.reviews && rv.bookingId == b.id;
      assert rv in rows;
    }
    if |rows| == 1 {
      assert rows[0] in rows;
    }
  }

  /** Submitting a review keeps at most one review per booking. */
  lemma SubmitReviewKeepsOnePerBooking(s: Store, selected: Option<Booking>, driver: Option<Driver>, rating: int, text: string)
    requires OneReviewPerBooking(s.reviews)
    ensures OneReviewPerBooking(SubmitReview(s, selected, driver, rating, text).store.reviews)
  {
    if selected.Some? {
      var b := selected.value;
      ReviewGuardExact(s, b);
      var rs := SubmitReview(s, selected, driver, rating, text).store.reviews;
      if |Filter(ForBooking(b.id), s.reviews)| != 1 {
        forall i, j | 0 <= i < j < |rs| ensures rs[i].bookingId != rs[j].bookingId {
          if j == |s.reviews| {
            assert rs[i] == s.reviews[i];
            assert s.reviews[i] in s.reviews;
          } else {
            assert rs[i] == s.reviews[i] && rs[j] == s.reviews[j];
          }
        }
      }
    }
  }

  /** Posting a ride keeps the store valid: the new id is fresh and the new
      ride is active and unresolved. */
  lemma AddRideKeepsValid(s: Store, driver: Option<Driver>, f: RideForm, newId: RideId)
    requires Valid(s)
    ensures Valid(AddRide(s, driver, f, newId).store)
  {
    var s' := AddRide(s, driver, f, newId).store;
    if driver.Some? && newId !in RideIds(s.rides) {
      forall i, j | 0 <= i < j < |s'.rides| ensures s'.rides[i].id != s'.rides[j].id {
        if j == |s.rides| {
          assert s'.rides[i] == s.rides[i];
          assert s.rides[i] in s.rides;
        } else {
          assert s'.rides[i] == s.rides[i] && s'.rides[j] == s.rides[j];
        }
      }
      forall i | 0 <= i < |s'.rides| ensures Coupled(s'.rides[i]) {
        if i < |s.rides| {
          assert s'.rides[i] == s.rides[i];
        }
      }
    }
  }

  /** Completing a ride keeps the store valid, whichever ride it names. */
  lemma CompleteRideKeepsValid(s: Store, driver: Option<Driver>, rideId: RideId)
    requires Valid(s)
    ensures Valid(CompleteRide(s, driver, rideId).store)
  {
  }

  /** Cancelling a ride keeps the store valid, whichever ride it names. */
  lemma CancelRideKeepsValid(s: Store, rideId: RideId, cleanup: bool)
    requires Valid(s)
    ensures Valid(CancelRide(s, rideId, cleanup).store)
  {
  }

  /** Re-pricing a ride keeps the store valid. */
  lemma EditPriceKeepsValid(s: Store, rideId: RideId, price: Option<int>)
    requires Valid(s)
    ensures Valid(EditPrice(s, rideId, price).store)
  {
  }
}
