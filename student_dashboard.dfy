/** The student dashboard's derived lists: upcoming and past bookings, the
    completed count, and the cancellation request it sends. */
module StudentDashboard {
  import opened Seqs
  import opened Schema

  /** Still to come: pending or confirmed, and later than now. */
  predicate IsUpcoming(b: Booking, now: int)
  {
    (b.status == "pending" || b.status == "confirmed") && b.scheduledAt > now
  }

  /** Over: completed or cancelled, or not later than now. */
  predicate IsPast(b: Booking, now: int)
  {
    b.status == "completed" || b.status == "cancelled" || b.scheduledAt <= now
  }

  /** One of the four statuses the dashboard knows. */
  predicate KnownStatus(b: Booking)
  {
    b.status in {"pending", "confirmed", "completed", "cancelled"}
  }

  function UpcomingFilter(now: int): Booking -> bool
  {
    (b: Booking) => IsUpcoming(b, now)
  }

  function PastFilter(now: int): Booking -> bool
  {
    (b: Booking) => IsPast(b, now)
  }

  /** `upcomingBookings`. */
  function Upcoming(bookings: seq<Booking>, now: int): (r: seq<Booking>)
    ensures forall b :: b in r <==> b in bookings && IsUpcoming(b, now)
    ensures Subseq(r, bookings)
  {
    FilterSubseq(bookings, UpcomingFilter(now));
    Filter(bookings, UpcomingFilter(now))
  }

  /** `pastBookings`. */
  function Past(bookings: seq<Booking>, now: int): (r: seq<Booking>)
    ensures forall b :: b in r <==> b in bookings && IsPast(b, now)
    ensures Subseq(r, bookings)
  {
    FilterSubseq(bookings, PastFilter(now));
    Filter(bookings, PastFilter(now))
  }

  /** A booking with a known status lands in exactly one of the two lists;
      one with any other status and a future time lands in neither. */
  lemma Partition(bookings: seq<Booking>, now: int, b: Booking)
    requires b in bookings
    ensures KnownStatus(b) ==> (b in Upcoming(bookings, now) <==> b !in Past(bookings, now))
    ensures !KnownStatus(b) && b.scheduledAt > now ==> b !in Upcoming(bookings, now) && b !in Past(bookings, now)
  {
  }

  /** A booking is never in both lists, whatever its status. */
  lemma Disjoint(bookings: seq<Booking>, now: int)
    ensures forall b :: b in Upcoming(bookings, now) ==> b !in Past(bookings, now)
  {
  }

  /** A confirmed booking whose start time has been reached is listed as
      past, although nobody marked it completed. */
  lemma StartedCountsAsPast(bookings: seq<Booking>, now: int, b: Booking)
    requires b in bookings && b.status == "confirmed" && b.scheduledAt <= now
    ensures b in Past(bookings, now) && b !in Upcoming(bookings, now)
  {
  }

  predicate IsCompleted(b: Booking) { b.status == "completed" }

  /** `bookings.filter(b => b.status === "completed").length`. */
  function CompletedCount(bookings: seq<Booking>): (n: nat)
    ensures n == CountWhere(bookings, IsCompleted)
    ensures n <= |bookings|
  {
    FilterLength(bookings, IsCompleted);
    |Filter(bookings, IsCompleted)|
  }

  /** Completed bookings are a part of the past list. */
  lemma CompletedArePast(bookings: seq<Booking>, now: int)
    ensures forall b :: b in bookings && IsCompleted(b) ==> b in Past(bookings, now)
  {
  }

  /** The request `handleCancelBooking` sends. */
  datatype StatusRequest = StatusRequest(path: string, verb: string, status: string)

  /** `PATCH /api/bookings/<id>` with body `{ status: "cancelled" }`, for
      the booking whose id was stored when the dialog was opened. */
  function CancelRequest(bookingId: string): (r: StatusRequest)
    ensures r.verb == "PATCH" && r.status == "cancelled"
    ensures |r.path| == |"/api/bookings/"| + |bookingId|
    ensures r.path[..|"/api/bookings/"|] == "/api/bookings/" && r.path[|"/api/bookings/"|..] == bookingId
  {
    StatusRequest("/api/bookings/" + bookingId, "PATCH", "cancelled")
  }

  /** Different bookings get different request paths. */
  lemma CancelTargetsOneBooking(a: string, b: string)
    requires a != b
    ensures CancelRequest(a).path != CancelRequest(b).path
  {
    assert CancelRequest(a).path[|"/api/bookings/"|..] == a;
  }

  /** Once a booking is cancelled, by any route that only changes its
      status, it moves to the past list. */
  lemma CancelledIsPast(bookings: seq<Booking>, now: int, b: Booking)
    requires b in bookings && b.status == "cancelled"
    ensures b in Past(bookings, now) && b !in Upcoming(bookings, now)
  {
  }
}
