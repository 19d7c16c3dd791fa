/** `GET /api/sessions`: the slots a student may still book, soonest
    first, optionally of one expert. */
module SessionsRoute {
  import opened Common
  import opened Seqs
  import opened Schema
  import BookingsRoute

  /** The database query: upcoming slots that have not started yet
      (`scheduledAt >= now`), of `expertId` when that parameter is given. */
  predicate Offered(v: SlotView, expertId: Option<string>, now: int)
  {
    (Truthy(expertId) ==> v.slot.expertId == expertId.value) &&
    v.slot.status == "upcoming" && v.slot.scheduledAt >= now
  }

  /** The in-memory filter: the slot's booking count, over every status,
      is below its capacity. */
  predicate HasSeat(v: SlotView)
  {
    v.bookingCount < v.slot.maxStudents
  }

  /** The database query, with each slot's `_count.bookings`, soonest first. */
  function OfferedSlots(slots: seq<LiveSession>, bookings: seq<Booking>, expertId: Option<string>, now: int)
    : (q: seq<SlotView>)
    ensures forall v :: v in q <==> v in WithCounts(slots, bookings) && Offered(v, expertId, now)
    ensures forall v :: multiset(q)[v] == if Offered(v, expertId, now) then multiset(WithCounts(slots, bookings))[v] else 0
    ensures SortedBy(q, ViewTimeAsc)
  {
    Query(WithCounts(slots, bookings), (v: SlotView) => Offered(v, expertId, now), ViewTimeAsc)
  }

  /** The reply's `sessions`. It needs no identity and writes nothing. */
  function AvailableSessions(slots: seq<LiveSession>, bookings: seq<Booking>, expertId: Option<string>, now: int)
    : (r: seq<SlotView>)
    ensures forall v :: v in r <==> v in WithCounts(slots, bookings) && Offered(v, expertId, now) && HasSeat(v)
    ensures forall v :: multiset(r)[v] == (if Offered(v, expertId, now) && HasSeat(v)
                                           then multiset(WithCounts(slots, bookings))[v] else 0)
    ensures forall i, j :: 0 <= i < j < |r| ==> r[i].slot.scheduledAt <= r[j].slot.scheduledAt
    ensures Subseq(r, OfferedSlots(slots, bookings, expertId, now))
  {
    var q := OfferedSlots(slots, bookings, expertId, now);
    SeatFilterKeepsOrder(q);
    FilterMultiset(q, HasSeat);
    Filter(q, HasSeat)
  }

  /** Dropping the full slots keeps the rest in order. */
  lemma SeatFilterKeepsOrder(q: seq<SlotView>)
    requires SortedBy(q, ViewTimeAsc)
    ensures var r := Filter(q, HasSeat);
            Subseq(r, q) && forall i, j :: 0 <= i < j < |r| ==> r[i].slot.scheduledAt <= r[j].slot.scheduledAt
  {
    var r := Filter(q, HasSeat);
    FilterSubseq(q, HasSeat);
    FilterSorted(q, HasSeat, ViewTimeAsc);
    forall i, j | 0 <= i < j < |r| ensures r[i].slot.scheduledAt <= r[j].slot.scheduledAt {
      assert ViewTimeAsc(r[i]) <= ViewTimeAsc(r[j]);
    }
  }

  /** Every listed slot carries its live count, which is below capacity. */
  lemma ListedSlotsHaveSeats(slots: seq<LiveSession>, bookings: seq<Booking>, expertId: Option<string>, now: int, v: SlotView)
    requires v in AvailableSessions(slots, bookings, expertId, now)
    ensures v.slot in slots && v.bookingCount == SlotCount(bookings, v.slot.id) < v.slot.maxStudents
  {
    var w := WithCounts(slots, bookings);
    var i :| 0 <= i < |w| && w[i] == v;
  }

  /** A listed slot can be booked by any student not yet registered for it:
      the group path of `POST /api/bookings` accepts it. */
  lemma ListedSlotIsBookable(slots: seq<LiveSession>, bookings: seq<Booking>, expertId: Option<string>, now: int,
                             v: SlotView, studentId: string, req: BookingsRoute.BookingRequest, id: string, t: int)
    requires UniqueSlots(slots)
    requires v in AvailableSessions(slots, bookings, expertId, now)
    requires req.liveSessionId == Some(v.slot.id) && v.slot.id != ""
    requires !BookingsRoute.Registered(bookings, studentId, v.slot.id)
    ensures BookingsRoute.PlanBooking(slots, bookings, studentId, req, id, t).Ok?
  {
    ListedSlotsHaveSeats(slots, bookings, expertId, now, v);
    var found := SlotById(slots, v.slot.id).value;
    var i :| 0 <= i < |slots| && slots[i] == v.slot;
    var j :| 0 <= j < |slots| && slots[j] == found;
    assert i == j;
  }
}
