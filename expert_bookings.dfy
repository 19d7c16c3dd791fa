/** `GET /api/expert/bookings`: the signed-in expert's bookings, each with
    its student's contact, and the expert's slots with their counts. */
module ExpertBookingsRoute {
  import opened Common
  import opened Seqs
  import opened Schema
  import ExpertSessionsRoute

  const UnauthorizedMsg := "Unauthorized"
  const NotAnExpertMsg := "Not an expert"

  /** The `student` fields the handler includes. */
  datatype StudentContact = StudentContact(firstName: string, lastName: string, email: string)

  /** A booking with its student (absent when no user has the booking's
      `studentId`). */
  datatype BookingRow = BookingRow(booking: Booking, student: Option<StudentContact>)

  datatype ExpertBookingsReply = ExpertBookingsReply(
    bookings: seq<BookingRow>,
    liveSessions: seq<SlotView>,
    expert: Expert)

  function ContactOf(users: seq<User>, studentId: string): (c: Option<StudentContact>)
    ensures c.Some? <==> UserById(users, studentId).Some?
    ensures c.Some? ==> var u := UserById(users, studentId).value;
                        c.value == StudentContact(u.firstName, u.lastName, u.email)
  {
    match UserById(users, studentId)
    case None => None
    case Some(u) => Some(StudentContact(u.firstName, u.lastName, u.email))
  }

  /** The bookings of expert `expertId`, latest first. */
  function BookingsOf(bookings: seq<Booking>, expertId: string): (r: seq<Booking>)
    ensures forall b :: b in r <==> b in bookings && b.expertId == expertId
    ensures forall b :: multiset(r)[b] == if b.expertId == expertId then multiset(bookings)[b] else 0
    ensures forall i, j :: 0 <= i < j < |r| ==> r[i].scheduledAt >= r[j].scheduledAt
  {
    var r := Query(bookings, (b: Booking) => b.expertId == expertId, BookingTimeDesc);
    assert forall i, j :: 0 <= i < j < |r| ==> BookingTimeDesc(r[i]) <= BookingTimeDesc(r[j]);
    r
  }

  /** The bookings of a list of rows, in order. */
  function BookingsIn(rows: seq<BookingRow>): (r: seq<Booking>)
    ensures |r| == |rows| && forall i :: 0 <= i < |r| ==> r[i] == rows[i].booking
  {
    seq(|rows|, i requires 0 <= i < |rows| => rows[i].booking)
  }

  /** Each booking paired with its student's contact, in the same order. */
  function WithStudents(users: seq<User>, bookings: seq<Booking>): (r: seq<BookingRow>)
    ensures BookingsIn(r) == bookings
    ensures forall i :: 0 <= i < |r| ==> r[i].student == ContactOf(users, bookings[i].studentId)
  {
    var r := seq(|bookings|, i requires 0 <= i < |bookings| => BookingRow(bookings[i], ContactOf(users, bookings[i].studentId)));
    assert BookingsIn(r) == bookings;
    r
  }

  /** What the handler returns for expert `e`: the bookings of `e` (see
      `BookingsOf`), each with its student, and `e`'s slots with their
      counts. */
  function ExpertView(users: seq<User>, slots: seq<LiveSession>, bookings: seq<Booking>, e: Expert)
    : (r: ExpertBookingsReply)
    ensures r.expert == e
    ensures BookingsIn(r.bookings) == BookingsOf(bookings, e.id)
    ensures forall i :: 0 <= i < |r.bookings| ==> r.bookings[i].student == ContactOf(users, r.bookings[i].booking.studentId)
    ensures r.liveSessions == ExpertSessionsRoute.SlotsOf(slots, bookings, e.id)
    ensures forall v :: v in r.liveSessions <==>
      v.slot in slots && v.slot.expertId == e.id && v.bookingCount == SlotCount(bookings, v.slot.id)
    ensures forall i, j :: 0 <= i < j < |r.liveSessions| ==>
      r.liveSessions[i].slot.scheduledAt >= r.liveSessions[j].slot.scheduledAt
  {
    var own := BookingsOf(bookings, e.id);
    var rows := WithStudents(users, own);
    var live := ExpertSessionsRoute.SlotsOf(slots, bookings, e.id);
    forall v: SlotView ensures v in live <==>
      v.slot in slots && v.slot.expertId == e.id && v.bookingCount == SlotCount(bookings, v.slot.id) {
      ExpertSessionsRoute.SlotsOfMembers(slots, bookings, e.id, v);
    }
    forall i, j | 0 <= i < j < |live| ensures live[i].slot.scheduledAt >= live[j].slot.scheduledAt {
      ExpertSessionsRoute.SlotsOfLatestFirst(slots, bookings, e.id, i, j);
    }
    ExpertBookingsReply(rows, live, e)
  }

  /** `GET /api/expert/bookings`. It reads the store only. */
  function ExpertBookings(users: seq<User>, experts: seq<Expert>, slots: seq<LiveSession>, bookings: seq<Booking>,
                          identity: Option<string>): (r: Response<ExpertBookingsReply>)
    ensures identity.None? <==> r == Fail(Unauthorized, UnauthorizedMsg)
    ensures identity.Some? ==> (ExpertByClerkId(experts, identity.value).None? <==> r == Fail(Forbidden, NotAnExpertMsg))
    ensures r.Ok? ==> identity.Some? && ExpertByClerkId(experts, identity.value) == Some(r.value.expert)
    ensures r.Ok? ==> r.value == ExpertView(users, slots, bookings, r.value.expert)
  {
    if identity.None? then Fail(Unauthorized, UnauthorizedMsg)
    else
      match ExpertByClerkId(experts, identity.value)
      case None => Fail(Forbidden, NotAnExpertMsg)
      case Some(e) => Ok(ExpertView(users, slots, bookings, e))
  }
}
