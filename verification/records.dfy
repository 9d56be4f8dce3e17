/** The rows this dashboard reads and writes: drivers, rides, bookings and
    reviews, held as immutable records in an in-memory store that stands for
    the remote database. */
module Records {
  import opened Wrappers

  type DriverId = string
  type RideId = string
  type BookingId = string
  type UserId = string

  /** A ride's lifecycle status (`active | completed | cancelled`). */
  datatype RideStatus = Active | Completed | Cancelled

  /** A booking's status. */
  datatype BookingStatus = Pending | Confirmed | BookingCompleted | BookingCancelled

  /** A driver row. `completedRides` is nullable in the database. */
  datatype Driver = Driver(
    id: DriverId,
    userId: UserId,
    isVerified: bool,
    totalEarnings: int,
    completedRides: Option<int>)

  /** A ride row. `completed` is the tri-state `is_ride_completed` flag:
      `None` is unresolved, `Some(true)` earnings-eligible, `Some(false)` void.
      Prices and seat counts are whole numbers (rupees or paise). */
  datatype Ride = Ride(
    id: RideId,
    driverId: DriverId,
    origin: string,
    destination: string,
    price: int,
    totalSeats: int,
    availableSeats: int,
    departure: string,
    status: RideStatus,
    completed: Option<bool>)

  /** A booking row together with the customer's phone from the `users` relation. */
  datatype Booking = Booking(
    id: BookingId,
    rideId: RideId,
    userId: UserId,
    seatsBooked: int,
    status: BookingStatus,
    customerPhone: string)

  /** A driver's review of a customer, keyed by the booking it is about. */
  datatype Review = Review(
    driverId: Option<DriverId>,
    customerId: UserId,
    bookingId: BookingId,
    rating: int,
    text: string)

  /** The database tables this page touches. */
  datatype Store = Store(
    drivers: seq<Driver>,
    rides: seq<Ride>,
    bookings: seq<Booking>,
    reviews: seq<Review>)

  /** The ids of a sequence of rides. */
  function RideIds(rides: seq<Ride>): set<RideId> {
    set x | x in rides :: x.id
  }

  /** Ride ids are a primary key: no two rows share one. */
  predicate UniqueRideIds(rides: seq<Ride>) {
    forall i, j :: 0 <= i < j < |rides| ==> rides[i].id != rides[j].id
  }

  /** Driver ids are a primary key too. */
  predicate UniqueDriverIds(drivers: seq<Driver>) {
    forall i, j :: 0 <= i < j < |drivers| ==> drivers[i].id != drivers[j].id
  }

  /** Status and completion flag move together: an active ride is unresolved,
      a completed one is earnings-eligible, a cancelled one is void. */
  predicate Coupled(r: Ride) {
    match r.status
    case Active => r.completed == None
    case Completed => r.completed == Some(true)
    case Cancelled => r.completed == Some(false)
  }

  /** No two reviews are about the same booking. */
  predicate OneReviewPerBooking(reviews: seq<Review>) {
    forall i, j :: 0 <= i < j < |reviews| ==> reviews[i].bookingId != reviews[j].bookingId
  }

  /** The invariant every operation of the dashboard keeps. */
  predicate Valid(s: Store) {
    && UniqueRideIds(s.rides)
    && UniqueDriverIds(s.drivers)
    && (forall i :: 0 <= i < |s.rides| ==> Coupled(s.rides[i]))
    && OneReviewPerBooking(s.reviews)
  }
}
