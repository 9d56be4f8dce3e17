/** The ride lifecycle as the page drives it. A driver's rides are listed
    with Complete, Cancel and Edit buttons only while a ride is `active`, and
    the add-ride form only for a verified driver; every other action goes
    straight to its handler. So `active → completed` and `active → cancelled`
    are the only status changes, and both end states are final as long as
    the listed rides agree with the store, which every successful handler
    restores by re-fetching. */
module Lifecycle {
  import opened Wrappers
  import opened Collections
  import opened Records
  import opened Earnings
  import opened Dashboard

  /** A user action on the dashboard. */
  datatype Action =
    | Post(form: RideForm, newId: RideId)
    | Complete(rideId: RideId)
    | Cancel(rideId: RideId, cleanup: bool)
    | Reprice(rideId: RideId, price: Option<int>)
    | ReviewCustomer(selected: Option<Booking>, rating: int, text: string)

  /** The ride's card shows the Complete, Cancel and Edit buttons: it is one
      of driver `d`'s rides and it is active. */
  predicate Offered(s: Store, d: DriverId, rideId: RideId) {
    exists x :: x in RidesOf(s, d) && x.id == rideId && x.status == Active
  }

  /** Performs action `a` for the loaded driver `d`, if the page offers it. */
  function Dispatch(s: Store, d: Driver, a: Action): (st: Step)
    ensures st.notice == NotOffered ==> st.store == s
    ensures a.Post? ==> (st.notice == NotOffered <==> !d.isVerified)
    ensures (a.Complete? || a.Cancel? || a.Reprice?) ==> (st.notice == NotOffered <==> !Offered(s, d.id, a.rideId))
    ensures a.ReviewCustomer? ==> st.notice != NotOffered
  {
    match a
    case Post(f, id) =>
      if d.isVerified then AddRide(s, Some(d), f, id) else Step(s, NotOffered)
    case Complete(id) =>
      if Offered(s, d.id, id) then CompleteRide(s, Some(d), id) else Step(s, NotOffered)
    case Cancel(id, cleanup) =>
      if Offered(s, d.id, id) then CancelRide(s, id, cleanup) else Step(s, NotOffered)
    case Reprice(id, p) =>
      if Offered(s, d.id, id) then EditPrice(s, id, p) else Step(s, NotOffered)
    case ReviewCustomer(b, rating, text) =>
      SubmitReview(s, b, Some(d), rating, text)
  }

  /** A session: the actions in order, each on the store the previous one left. */
  function Run(s: Store, d: Driver, acts: seq<Action>): Store
    decreases |acts|
  {
    if |acts| == 0 then s else Run(Dispatch(s, d, acts[0]).store, d, acts[1..])
  }

  /** A ride that is no longer active has no Complete, Cancel or Edit button. */
  lemma FinishedRideNotOffered(s: Store, d: Driver, i: int)
    requires UniqueRideIds(s.rides)
    requires 0 <= i < |s.rides| && s.rides[i].status != Active
    ensures !Offered(s, d.id, s.rides[i].id)
  {
    forall y | y in RidesOf(s, d.id) && y.id == s.rides[i].id ensures y.status != Active {
      assert s.rides[i] in s.rides;
      SameIdSameRide(s.rides, y, s.rides[i]);
    }
  }

  /** Every action the page offers keeps the store valid: ride and driver ids
      unique, status and flag coupled, at most one review per booking. */
  lemma DispatchKeepsValid(s: Store, d: Driver, a: Action)
    requires Valid(s)
    ensures Valid(Dispatch(s, d, a).store)
  {
    match a {
      case Post(f, id) =>
        AddRideKeepsValid(s, Some(d), f, id);
      case Complete(id) =>
        CompleteRideKeepsValid(s, Some(d), id);
      case Cancel(id, cleanup) =>
        CancelRideKeepsValid(s, id, cleanup);
      case Reprice(id, p) =>
        EditPriceKeepsValid(s, id, p);
      case ReviewCustomer(b, rating, text) =>
        SubmitReviewKeepsOnePerBooking(s, b, Some(d), rating, text);
    }
  }

  /** With driver ids unique, the loaded driver's row is the only match. */
  lemma {:induction false} DriverRowFound(drivers: seq<Driver>, id: DriverId)
    requires UniqueDriverIds(drivers)
    requires exists x :: x in drivers && x.id == id
    ensures |Filter(ByDriverId(id), drivers)| == 1
    decreases |drivers|
  {
    var prefix := drivers[..|drivers| - 1];
    var last := drivers[|drivers| - 1];
    assert UniqueDriverIds(prefix);
    if last.id == id {
      forall x | x in prefix ensures !ByDriverId(id)(x) {
        var k :| 0 <= k < |prefix| && prefix[k] == x;
        assert drivers[k] == x;
      }
      assert Filter(ByDriverId(id), prefix) == [];
    } else {
      var x :| x in drivers && x.id == id;
      assert x in prefix by {
        var k :| 0 <= k < |drivers| && drivers[k] == x;
        assert k < |prefix| && prefix[k] == x;
      }
      DriverRowFound(prefix, id);
    }
  }

  /** The page decides its buttons from the rides of its last successful
      fetch, and every handler re-fetches when it succeeds. On a valid store
      whose loaded driver has its row, a handler changes the store only when
      it succeeds; so once that refresh lands, the list agrees with the
      store, as `Dispatch` assumes. In particular completing an offered ride
      cannot fail there. */
  lemma DispatchChangesOnlyOnSuccess(s: Store, d: Driver, a: Action)
    requires Valid(s)
    requires exists x :: x in s.drivers && x.id == d.id
    ensures Dispatch(s, d, a).notice == Succeeded || Dispatch(s, d, a).store == s
    ensures a.Complete? && Offered(s, d.id, a.rideId) ==> Dispatch(s, d, a).notice == Succeeded
  {
    DriverRowFound(s.drivers, d.id);
  }

  /** Completed and cancelled are final: no action the page offers changes a
      ride that is no longer active, in any field. */
  lemma FinishedRideIsFinal(s: Store, d: Driver, a: Action, i: int)
    requires Valid(s)
    requires 0 <= i < |s.rides| && s.rides[i].status != Active
    ensures i < |Dispatch(s, d, a).store.rides|
    ensures Dispatch(s, d, a).store.rides[i] == s.rides[i]
  {
    FinishedRideNotOffered(s, d, i);
    if a.Post? && d.isVerified && a.newId !in RideIds(s.rides) {
      assert AddRide(s, Some(d), a.form, a.newId).store.rides[..|s.rides|] == s.rides;
    }
  }

  /** A completed ride cannot be completed again from the page, so the
      driver's counter is raised at most once per ride. */
  lemma NoSecondCompletion(s: Store, d: Driver, i: int)
    requires Valid(s)
    requires 0 <= i < |s.rides| && s.rides[i].status == Completed
    ensures Dispatch(s, d, Complete(s.rides[i].id)) == Step(s, NotOffered)
  {
    FinishedRideNotOffered(s, d, i);
  }

  /** Over a whole session the store stays valid and a finished ride keeps
      its row unchanged. */
  lemma {:induction false} RunKeepsFinishedRide(s: Store, d: Driver, acts: seq<Action>, i: int)
    requires Valid(s)
    requires 0 <= i < |s.rides| && s.rides[i].status != Active
    ensures Valid(Run(s, d, acts))
    ensures i < |Run(s, d, acts).rides| && Run(s, d, acts).rides[i] == s.rides[i]
    decreases |acts|
  {
    if |acts| > 0 {
      DispatchKeepsValid(s, d, acts[0]);
      FinishedRideIsFinal(s, d, acts[0], i);
      RunKeepsFinishedRide(Dispatch(s, d, acts[0]).store, d, acts[1..], i);
    }
  }

  /** Cancelling an offered ride voids its earnings from then on: after any
      further session, every fetch shows 0 for it, whether or not the booking
      cleanup went through. */
  lemma CancelVoidsEarningsForever(s: Store, d: Driver, rideId: RideId, cleanup: bool, acts: seq<Action>, u: UserId)
    requires Valid(s)
    requires Offered(s, d.id, rideId)
    requires FetchDriverData(Run(Dispatch(s, d, Cancel(rideId, cleanup)).store, d, acts), u).Success?
    ensures Lookup(FetchDriverData(Run(Dispatch(s, d, Cancel(rideId, cleanup)).store, d, acts), u).value.perRide, rideId) == 0
  {
    var x :| x in RidesOf(s, d.id) && x.id == rideId && x.status == Active;
    var i :| 0 <= i < |s.rides| && s.rides[i] == x;
    var s1 := Dispatch(s, d, Cancel(rideId, cleanup)).store;
    DispatchKeepsValid(s, d, Cancel(rideId, cleanup));
    assert s1.rides[i].status == Cancelled;
    RunKeepsFinishedRide(s1, d, acts, i);
    var s2 := Run(s1, d, acts);
    assert s2.rides[i] in s2.rides;
    UnresolvedRideEarnsNothing(s2, u, s2.rides[i]);
  }

  /** Completing an offered ride makes every booking of it earnings-eligible
      for its driver: the next fetch joins each of them in. */
  lemma CompletionMakesBookingsEligible(s: Store, d: Driver, rideId: RideId)
    requires Valid(s)
    requires Offered(s, d.id, rideId)
    ensures forall b :: b in Dispatch(s, d, Complete(rideId)).store.bookings && b.rideId == rideId ==>
      EarningsEligible(Dispatch(s, d, Complete(rideId)).store, d.id, b)
  {
    var x :| x in RidesOf(s, d.id) && x.id == rideId && x.status == Active;
    var i :| 0 <= i < |s.rides| && s.rides[i] == x;
    var s' := Dispatch(s, d, Complete(rideId)).store;
    DispatchKeepsValid(s, d, Complete(rideId));
    assert s'.rides[i] in s'.rides;
    assert FindRide(s'.rides, rideId) == Some(s'.rides[i]);
  }
}
