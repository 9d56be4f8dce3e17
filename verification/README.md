# Driver dashboard: ride lifecycle and earnings

This project models the logic of the driver dashboard page of a ride-sharing app
(`app/driver-dashboard/page.tsx`). A driver posts rides, marks them completed or
cancelled, edits their price, looks at booking summaries and reviews customers.
Earnings are never stored. Every refresh derives them again from the bookings
whose joined ride has completion flag exactly `true`.

The database is replaced by an immutable `Store` of `Driver`, `Ride`, `Booking`
and `Review` rows. Each handler is a pure function from a store to a `Step`: the
new store plus the notice the handler ends with. The ride's tri-state
`is_ride_completed` flag is an `Option<bool>`. Prices and seat counts are integers.

Modules:
- `Wrappers` (wrappers.dfy): `Option` and `Result`.
- `Collections` (collections.dfy): an order-preserving `Filter`, a defaulting `Lookup`, and `SumValues`, the sum of a map's values, with its lemmas.
- `Records` (records.dfy): the rows and the store invariant `Valid`. The invariant says ride ids and driver ids are unique (both are primary keys), status and flag are coupled, and each booking has at most one review.
- `Earnings` (earnings.dfy): the `reduce` that computes total earnings (`TotalEarnings`, a left fold whose properties are the lemmas `TotalNeedsQualifying`, `TotalAppend`, `UnqualifiedAddNothing` and `PerRideSumsToTotal`), and the two `forEach` passes that build the per-ride map.
- `Dashboard` (dashboard.dfy): the fetch with its inner join, the handlers, the booking summary, and their properties.
- `Lifecycle` (lifecycle.dfy): which buttons the page shows, a dispatcher that honours them, and the lifecycle theorems built on it.

Decisions about how the code is read:
- The review guard uses `.single()`. That returns a row only when exactly one row matches. The "no unique row" error code is ignored whether zero rows or several rows matched. So the handler refuses a review only when exactly one review already exists. `ReviewGuardExact` shows this is exactly "a review exists" whenever the one-review-per-booking invariant holds.
- The insert in `handleAddRide` sets no `status`. The model uses the table default `active`.
- Nothing in this page ever sets `selectedCustomer` to a booking. So `handleSubmitReview` cannot be reached from this page's UI. It is modelled as written.
- Both `.single()` failures, zero rows and several rows, are reported as `NoSingleDriverRow`, in the fetch and in the completion handler alike.
- The handlers themselves do not check a ride's status. Only the page's buttons restrict Complete, Cancel and Edit to active rides (:740-754), and the add-ride form to verified drivers (:582). `Lifecycle.Dispatch` models that gating. The raw handlers in `Dashboard` do not.

## Model

| member | source | states |
|---|---|---|
| Earnings.ZeroFor | app/driver-dashboard/page.tsx:181-184 | the first pass gives exactly the fetched ride ids an entry, each 0 |
| Earnings.Accumulate | app/driver-dashboard/page.tsx:186-192 | after the second pass the keys are the initial keys plus the `ride_id`s of qualifying bookings, and each entry is its initial value (missing read as 0) plus that ride's earnings by the reference sum |
| Earnings.RideEarnings | app/driver-dashboard/page.tsx:178-193 | every fetched ride has an entry; an id has an entry iff it is a fetched ride or the `ride_id` of a qualifying booking; each entry equals the sum of seats × price over the qualifying bookings with that `ride_id` |
| Earnings.EarnedWithoutQualifying | app/driver-dashboard/page.tsx:182-192 | a ride with no booking whose joined flag is exactly `true` has earned 0, whatever else is booked on it |
| Earnings.TotalNeedsQualifying | app/driver-dashboard/page.tsx:170-175 | the `reduce` total is non-zero only if some booking's joined flag is exactly `true`, and it is non-negative when every contribution is |
| Earnings.TotalAppend | app/driver-dashboard/page.tsx:170-175 | the total over two batches of bookings is the sum of their totals |
| Earnings.UnqualifiedAddNothing | app/driver-dashboard/page.tsx:170-192 | bookings whose joined ride is missing or has flag `null` or `false` change neither the total nor the per-ride map, whatever their seats |
| Earnings.PerRideSumsToTotal | app/driver-dashboard/page.tsx:170-192 | starting from an all-zero map, the sum of all per-ride entries equals the total earnings |
| Earnings.RideEarningsSumToTotal | app/driver-dashboard/page.tsx:170-193 | the derived per-ride map sums to the derived total |
| Earnings.TwoBookingsExample | app/driver-dashboard/page.tsx:170-192 | price 500 with bookings of 2 and 1 seats: 1500 once completed, 0 while unresolved |
| Dashboard.Single | app/driver-dashboard/page.tsx:122-126 | `.single()` yields a row iff exactly one row matches; that row matches and is the only match; no match yields nothing |
| Dashboard.FindRide | app/driver-dashboard/page.tsx:153-159 | the joined ride has the booking's `ride_id`; no ride means the id is absent; with unique ids it is the ride with that id |
| Dashboard.JoinEligible | app/driver-dashboard/page.tsx:148-162 | the join lists exactly the eligible bookings, in store order, each once, with its ride joined; its total and each ride's earnings equal the reference sums of seats × price over the store's bookings |
| Dashboard.JoinEligibleMembers | app/driver-dashboard/page.tsx:148-162 | a booking's joined row is in the join iff the booking is in the store and its ride is the driver's and completed |
| Dashboard.EarningsBookings | app/driver-dashboard/page.tsx:148-162 | every booking whose ride is the driver's and has flag `true` is fetched with its ride joined; every fetched booking is such a booking and qualifies; the fetched total and per-ride sums equal the reference sums over the store's bookings |
| Dashboard.FetchDriverData | app/driver-dashboard/page.tsx:120-193 | the fetch succeeds iff exactly one driver row has the user's id; on success the driver is that row, the rides are exactly that driver's, every ride has a per-ride entry, the total equals the sum of seats × price over the store's bookings of that driver's completed rides, every per-ride entry (0 if missing) equals the same sum restricted to that ride, and the entries sum to the total |
| Dashboard.BookingSummary | app/driver-dashboard/page.tsx:358-370 | the rows are exactly the confirmed or completed bookings of that ride, each once and in store order, projected to id, seats, status and phone |
| Dashboard.AddRide | app/driver-dashboard/page.tsx:204-220 | no driver loaded: no change; a taken id: the insert fails with no change; otherwise one ride is appended with the form's fields, available seats equal to total seats, status active and flag null, and nothing else changes |
| Dashboard.CompleteRide | app/driver-dashboard/page.tsx:240-272 | the target ride gets status completed and flag `true` and nothing else; other rides, bookings and reviews are unchanged; the loaded driver's counter becomes old value (null read as 0) plus 1 when its row is unique; otherwise the handler fails and the ride change stands |
| Dashboard.CancelRide | app/driver-dashboard/page.tsx:282-305 | the target ride gets status cancelled and flag `false` and nothing else; bookings of that ride become cancelled when the cleanup goes through and stay as they were otherwise; other bookings, rides, drivers and reviews are unchanged |
| Dashboard.EditPrice | app/driver-dashboard/page.tsx:325-344 | an unparsable price is rejected with no change; otherwise only the `price` field of the target ride changes |
| Dashboard.SubmitReview | app/driver-dashboard/page.tsx:407-438 | no booking selected: no change; exactly one existing review: abort with no change; otherwise one review is appended with that booking, its customer, the rating, the text and the loaded driver's id, and nothing else changes |
| Dashboard.ShownEarnings | app/driver-dashboard/page.tsx:731-732 | a ride's card shows a non-zero figure only when its flag is `true`, and then it is the ride's map entry |
| Dashboard.UnresolvedRideEarnsNothing | app/driver-dashboard/page.tsx:169-192 | a ride whose flag is not `true` shows 0 in the derived per-ride map whatever its bookings, and has an entry if it is one of the fetched rides |
| Dashboard.ShownEarningsMatchMap | app/driver-dashboard/page.tsx:731-732 | the figure on a fetched ride's card equals that ride's per-ride entry |
| Dashboard.AtMostOneReviewFound | app/driver-dashboard/page.tsx:412-416 | under one review per booking the existence lookup matches at most one row |
| Dashboard.ReviewGuardExact | app/driver-dashboard/page.tsx:411-427 | under one review per booking a submission is refused iff the booking already has a review |
| Dashboard.SubmitReviewKeepsOnePerBooking | app/driver-dashboard/page.tsx:407-438 | submitting a review keeps at most one review per booking |
| Dashboard.AddRideKeepsValid | app/driver-dashboard/page.tsx:209-219 | posting a ride keeps ride ids unique and status and flag coupled |
| Dashboard.CompleteRideKeepsValid | app/driver-dashboard/page.tsx:247-272 | completing any ride keeps the store valid, including unique driver ids after the counter update |
| Dashboard.CancelRideKeepsValid | app/driver-dashboard/page.tsx:289-300 | cancelling any ride keeps the store valid |
| Dashboard.EditPriceKeepsValid | app/driver-dashboard/page.tsx:338-344 | re-pricing keeps the store valid |
| Lifecycle.Dispatch | app/driver-dashboard/page.tsx:740-754 | Complete, Cancel and Edit are refused with no change iff the ride is not one of the driver's active rides; posting is refused iff the driver is unverified; the page never offers reviewing, but `Dispatch` allows it, which only widens what the lemmas about it cover |
| Lifecycle.FinishedRideNotOffered | app/driver-dashboard/page.tsx:740-754 | a ride that is no longer active has no Complete, Cancel or Edit button |
| Lifecycle.DispatchKeepsValid | app/driver-dashboard/page.tsx:204-453 | every offered action keeps ride ids and driver ids unique, status and flag coupled, and one review per booking |
| Lifecycle.DriverRowFound | app/driver-dashboard/page.tsx:256-260 | with driver ids unique, the loaded driver's `.single()` lookup matches exactly one row |
| Lifecycle.DispatchChangesOnlyOnSuccess | app/driver-dashboard/page.tsx:204-354 | on a valid store holding the loaded driver's row, an action changes the store only when it succeeds, and completing an offered ride always succeeds; every success re-fetches (:232, :274, :308, :350), so once that refresh lands the page's ride list agrees with the store |
| Lifecycle.FinishedRideIsFinal | app/driver-dashboard/page.tsx:740-754 | no offered action changes any field of a completed or cancelled ride |
| Lifecycle.NoSecondCompletion | app/driver-dashboard/page.tsx:740-742 | completing an already completed ride is not offered and changes nothing, so under the model's gating the counter rises at most once per ride |
| Lifecycle.RunKeepsFinishedRide | app/driver-dashboard/page.tsx:740-754 | over any sequence of actions the store stays valid and a finished ride's row is unchanged |
| Lifecycle.CancelVoidsEarningsForever | app/driver-dashboard/page.tsx:288-308 | after cancelling an offered ride, every later fetch shows 0 earnings for it after any further actions, whether or not the booking cleanup went through |
| Lifecycle.CompletionMakesBookingsEligible | app/driver-dashboard/page.tsx:247-250 | after completing an offered ride, every booking of it qualifies for the driver's earnings query |

## Left out

- Network I/O through the database client is left out. Queries, inserts and updates are pure functions over the store. Transport errors are not modelled. Two failures are modelled: a driver row that is not unique, and a ride id that is already taken.
- The failure path of the bookings fetch (:164-167) is left out. There, earnings keep their previous values. That is page state, which is not modelled.
- The SOS alert (:385-405) is left out. It is a single insert with no logic.
- React state, rendering, `alert`/`confirm` dialogs, router redirects and the `localStorage` session and role checks (:103-118, :455-458) are left out. A declined confirmation is the same as not dispatching the action.
- `handleEditRideClick` (:316-323) only pre-fills the dialog. The model passes the ride id straight to `EditPrice`, which also covers the `if (!editingRide) return` guard.
- Floating point is left out. `parseFloat` and `parseInt` are not modelled. `AddRide` takes whole numbers from the form, whose fields are required and numeric (:623-646). `EditPrice` takes `Option<int>`, where `None` stands for `NaN`. `toLocaleString` is display only.
- The ordering of rides by `created_at` (:138) is left out, along with the `created_at` columns. Ordering does not affect any derived value.
- The concurrency races are left out: the read-modify-write of `completed_rides` (:256-268), the check-then-insert of reviews (:412-438), and a second click in the window before an un-awaited refresh lands. Each handler is one sequential step.
- Display-only formatting is left out: the Aadhaar grouping (:796), badges and colours. Driver profile fields that no operation uses (photo, phones, address, licence, vehicle) are left out too.
- Lifecycle.Dispatch: decides the buttons from the current store, while the page decides from the ride list of its last successful fetch. `DispatchChangesOnlyOnSuccess` shows that, on a valid store that holds the loaded driver's row, only a successful handler changes the store, and every success re-fetches. So the two agree once that refresh lands. They part in two ways. First, every refresh is started without `await` (:232, :274, :308, :350, :448), and `setRides` runs only after its queries return (:122-144). Until then the page shows the list from before the action. Second, a failure between the ride update and the refresh in `handleCompleteRide` (:252-274), such as a transport error or a missing or duplicated driver row, leaves the list stale until the next successful fetch. In either case the page still shows Complete, Cancel and Edit on a ride that is already completed, and Cancel or Edit changes it. `Dispatch` also allows reviewing, which the page never offers: nothing on it sets a booking as the selected customer.
- Lifecycle.FinishedRideNotOffered: holds for the model's gating. On the page the stale list still offers the buttons before the refresh lands and after a failed completion (see `Lifecycle.Dispatch` above).
- Lifecycle.FinishedRideIsFinal: holds for the model's gating. Before the refresh lands, or after a failed completion, the page can still cancel or re-price the completed ride.
- Lifecycle.NoSecondCompletion: holds for the model's gating. The page offers Complete again on a completed ride in two cases: before the refresh lands, and after a failed completion. A second click that succeeds raises `completed_rides` once more (:264-268).
- Lifecycle.RunKeepsFinishedRide: holds for sessions in which every refresh lands before the next click and no completion fails midway. The stale-list paths above are not modelled.
- Lifecycle.CancelVoidsEarningsForever: holds for the model's gating. On the page the refresh after a cancel (:308) is not awaited, so the card still shows Mark Completed (:740-742). A click on it before the refresh lands runs `handleCompleteRide`, which sets status completed and flag `true` (:247-250). From then on every fetch shows earnings for the ride again, its cancelled bookings included, because the earnings query does not filter on booking status (:148-162).
