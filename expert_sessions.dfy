/** `POST /api/expert/sessions` (an expert schedules a group slot) and
    `GET /api/expert/sessions` (the expert's own slots). */
module ExpertSessionsRoute {
  import opened Common
  import opened Seqs
  import opened Schema
  import opened Store

  /** The JSON body of a slot-creation request; `duration` and
      `maxStudents` are held as `parseInt`'s result. `expertId` is read only
      by the admin route. */
  datatype SlotBody = SlotBody(
    expertId: Option<string>,
    title: Option<string>,
    description: Option<string>,
    sessionType: Option<string>,
    scheduledAt: DateField,
    duration: Option<int>,
    maxStudents: Option<int>)

  const DefaultSessionType := "group_counselling"

  const UnauthorizedMsg := "Unauthorized"
  const ExpertNotFoundMsg := "Expert not found"
  const TitleDateMsg := "Title and Date are required"
  const InvalidDateMsg := "Invalid date format"
  const PastMsg := "Cannot schedule sessions in the past"
  const DurationMsg := "Duration must be a positive number"
  const CapacityMsg := "Maximum students must be at least 1"

  /** The body passes every check of the `POST` handler. */
  predicate AcceptableSlot(body: SlotBody, now: int)
  {
    Truthy(body.title) && body.scheduledAt.At? && body.scheduledAt.time >= now &&
    body.duration.Some? && body.duration.value > 0 &&
    body.maxStudents.Some? && body.maxStudents.value > 0
  }

  /** The message of the first failing check, in the handler's order; a
      start time equal to `now` is not in the past. */
  function SlotBodyError(body: SlotBody, now: int): (r: Option<string>)
    ensures r.None? <==> AcceptableSlot(body, now)
    ensures !Truthy(body.title) || body.scheduledAt.NoDate? ==> r == Some(TitleDateMsg)
    ensures Truthy(body.title) && body.scheduledAt.BadDate? ==> r == Some(InvalidDateMsg)
    ensures Truthy(body.title) && body.scheduledAt.At? && body.scheduledAt.time < now ==> r == Some(PastMsg)
    ensures (Truthy(body.title) && body.scheduledAt.At? && body.scheduledAt.time >= now &&
             (body.duration.None? || body.duration.value <= 0)) ==> r == Some(DurationMsg)
    ensures (Truthy(body.title) && body.scheduledAt.At? && body.scheduledAt.time >= now &&
             body.duration.Some? && body.duration.value > 0 &&
             (body.maxStudents.None? || body.maxStudents.value <= 0)) ==> r == Some(CapacityMsg)
  {
    if !Truthy(body.title) || body.scheduledAt.NoDate? then Some(TitleDateMsg)
    else if body.scheduledAt.BadDate? then Some(InvalidDateMsg)
    else if body.scheduledAt.time < now then Some(PastMsg)
    else if body.duration.None? || body.duration.value <= 0 then Some(DurationMsg)
    else if body.maxStudents.None? || body.maxStudents.value <= 0 then Some(CapacityMsg)
    else None
  }

  /** The smallest slot the route accepts starts now, lasts one minute and
      seats one student. */
  lemma BoundaryAccepted(title: string, now: int)
    requires title != ""
    ensures SlotBodyError(SlotBody(None, Some(title), None, None, At(now), Some(1), Some(1)), now).None?
  {
  }

  /** The slot created for an acceptable body. */
  function NewSlot(id: string, expertId: string, body: SlotBody): (s: LiveSession)
    requires Truthy(body.title) && body.scheduledAt.At?
    requires body.duration.Some? && body.maxStudents.Some?
    ensures s.id == id && s.expertId == expertId && s.status == "upcoming"
    ensures s.title == body.title.value && s.description == body.description
    ensures s.scheduledAt == body.scheduledAt.time
    ensures s.sessionType == if Truthy(body.sessionType) then body.sessionType.value else DefaultSessionType
    ensures s.duration == body.duration.value && s.maxStudents == body.maxStudents.value
  {
    LiveSession(id, expertId, body.title.value, body.description, Or(body.sessionType, DefaultSessionType),
                body.scheduledAt.time, body.duration.value, body.maxStudents.value, "upcoming")
  }

  /** `POST /api/expert/sessions`. The identity and the expert lookup are
      decided before the body is looked at; every rejection leaves the slot
      table as it was. `freshId` is the id the store gives the new row. */
  method CreateExpertSlot(db: Db, identity: Option<string>, body: SlotBody, freshId: string, now: int)
    returns (resp: Response<LiveSession>)
    requires db.Valid()
    requires freshId !in SlotIds(db.sessions)
    modifies db
    ensures db.Valid()
    ensures db.users == old(db.users) && db.experts == old(db.experts) && db.bookings == old(db.bookings)
    ensures identity.None? ==> resp == Fail(Unauthorized, UnauthorizedMsg) && db.sessions == old(db.sessions)
    ensures identity.Some? && ExpertByClerkId(db.experts, identity.value).None? ==>
      resp == Fail(NotFound, ExpertNotFoundMsg) && db.sessions == old(db.sessions)
    ensures identity.Some? && ExpertByClerkId(db.experts, identity.value).Some? ==>
      var expert := ExpertByClerkId(db.experts, identity.value).value;
      (SlotBodyError(body, now).Some? ==>
         resp == Fail(BadRequest, SlotBodyError(body, now).value) && db.sessions == old(db.sessions)) &&
      (SlotBodyError(body, now).None? ==>
         resp == Ok(NewSlot(freshId, expert.id, body)) && db.sessions == old(db.sessions) + [resp.value])
  {
    if identity.None? {
      return Fail(Unauthorized, UnauthorizedMsg);
    }
    var expert := ExpertByClerkId(db.experts, identity.value);
    if expert.None? {
      return Fail(NotFound, ExpertNotFoundMsg);
    }
    var error := SlotBodyError(body, now);
    if error.Some? {
      return Fail(BadRequest, error.value);
    }
    var slot := NewSlot(freshId, expert.value.id, body);
    AddSlotKeepsConsistent(db.users, db.experts, db.sessions, db.bookings, slot);
    db.sessions := db.sessions + [slot];
    resp := Ok(slot);
  }

  // ----- GET -----

  /** The slots of expert `expertId` with their booking counts, latest first. */
  function SlotsOf(slots: seq<LiveSession>, bookings: seq<Booking>, expertId: string): (r: seq<SlotView>)
    ensures forall v :: v in r <==> v in WithCounts(slots, bookings) && v.slot.expertId == expertId
    ensures forall v :: multiset(r)[v] == if v.slot.expertId == expertId then multiset(WithCounts(slots, bookings))[v] else 0
    ensures SortedBy(r, ViewTimeDesc)
  {
    Query(WithCounts(slots, bookings), (v: SlotView) => v.slot.expertId == expertId, ViewTimeDesc)
  }

  /** The list holds each of the expert's slots with its live count, and
      no other slot. */
  lemma SlotsOfMembers(slots: seq<LiveSession>, bookings: seq<Booking>, expertId: string, v: SlotView)
    ensures v in SlotsOf(slots, bookings, expertId) <==>
            v.slot in slots && v.slot.expertId == expertId && v.bookingCount == SlotCount(bookings, v.slot.id)
  {
    InWithCounts(slots, bookings, v);
  }

  /** Latest first. */
  lemma SlotsOfLatestFirst(slots: seq<LiveSession>, bookings: seq<Booking>, expertId: string, i: int, j: int)
    requires 0 <= i < j < |SlotsOf(slots, bookings, expertId)|
    ensures SlotsOf(slots, bookings, expertId)[i].slot.scheduledAt >= SlotsOf(slots, bookings, expertId)[j].slot.scheduledAt
  {
    var r := SlotsOf(slots, bookings, expertId);
    assert ViewTimeDesc(r[i]) <= ViewTimeDesc(r[j]);
  }

  /** `GET /api/expert/sessions`. */
  function ExpertSlots(experts: seq<Expert>, slots: seq<LiveSession>, bookings: seq<Booking>, identity: Option<string>)
    : (r: Response<seq<SlotView>>)
    ensures identity.None? <==> r == Fail(Unauthorized, UnauthorizedMsg)
    ensures identity.Some? ==> (ExpertByClerkId(experts, identity.value).None? <==> r == Fail(NotFound, ExpertNotFoundMsg))
    ensures r.Ok? ==> (identity.Some? && ExpertByClerkId(experts, identity.value).Some? &&
      r.value == SlotsOf(slots, bookings, ExpertByClerkId(experts, identity.value).value.id))
  {
    if identity.None? then Fail(Unauthorized, UnauthorizedMsg)
    else
      var expert := ExpertByClerkId(experts, identity.value);
      if expert.None? then Fail(NotFound, ExpertNotFoundMsg)
      else Ok(SlotsOf(slots, bookings, expert.value.id))
  }
}
