/** `GET /api/admin/sessions` (every slot) and `POST /api/admin/sessions`
    (an administrator schedules a slot for any expert). */
module AdminSessionsRoute {
  import opened Common
  import opened Seqs
  import opened Schema
  import opened Store
  import opened ExpertSessionsRoute

  const AdminRequiredMsg := "Expert ID, Title and Date are required"
  const CreateFailedMsg := "Failed to create session slot"
  const DefaultDuration := 60
  const DefaultMaxStudents := 50

  // ----- GET -----

  /** Every slot with its booking count, latest first. The handler reads
      the caller's identity but checks nothing, so any caller gets the list. */
  function AllSlots(slots: seq<LiveSession>, bookings: seq<Booking>): (r: seq<SlotView>)
    ensures forall v :: v in r <==> v in WithCounts(slots, bookings)
    ensures |r| == |slots|
    ensures SortedBy(r, ViewTimeDesc)
  {
    Query(WithCounts(slots, bookings), (v: SlotView) => true, ViewTimeDesc)
  }

  // ----- POST -----

  /** The duration and capacity the handler stores: `parseInt(x) || default`. */
  function AdminDuration(body: SlotBody): int { OrNumber(body.duration, DefaultDuration) }
  function AdminCapacity(body: SlotBody): int { OrNumber(body.maxStudents, DefaultMaxStudents) }

  /** The body passes every check of the `POST` handler. */
  predicate AcceptableAdminSlot(body: SlotBody, now: int)
  {
    Truthy(body.expertId) && Truthy(body.title) && body.scheduledAt.At? && body.scheduledAt.time >= now &&
    AdminDuration(body) > 0 && AdminCapacity(body) > 0
  }

  /** The message of the first failing check, in the handler's order. */
  function AdminSlotBodyError(body: SlotBody, now: int): (r: Option<string>)
    ensures r.None? <==> AcceptableAdminSlot(body, now)
    ensures (!Truthy(body.expertId) || !Truthy(body.title) || body.scheduledAt.NoDate?) ==> r == Some(AdminRequiredMsg)
    ensures (Truthy(body.expertId) && Truthy(body.title) && body.scheduledAt.BadDate?) ==> r == Some(InvalidDateMsg)
    ensures (Truthy(body.expertId) && Truthy(body.title) && body.scheduledAt.At? && body.scheduledAt.time < now) ==>
            r == Some(PastMsg)
    ensures (Truthy(body.expertId) && Truthy(body.title) && body.scheduledAt.At? && body.scheduledAt.time >= now &&
             AdminDuration(body) <= 0) ==> r == Some(DurationMsg)
    ensures (Truthy(body.expertId) && Truthy(body.title) && body.scheduledAt.At? && body.scheduledAt.time >= now &&
             AdminDuration(body) > 0 && AdminCapacity(body) <= 0) ==> r == Some(CapacityMsg)
    ensures r == Some(DurationMsg) ==> body.duration.Some? && body.duration.value < 0
    ensures r == Some(CapacityMsg) ==> body.maxStudents.Some? && body.maxStudents.value < 0
  {
    if !Truthy(body.expertId) || !Truthy(body.title) || body.scheduledAt.NoDate? then Some(AdminRequiredMsg)
    else if body.scheduledAt.BadDate? then Some(InvalidDateMsg)
    else if body.scheduledAt.time < now then Some(PastMsg)
    else if AdminDuration(body) <= 0 then Some(DurationMsg)
    else if AdminCapacity(body) <= 0 then Some(CapacityMsg)
    else None
  }

  /** Unlike the expert's route, a missing, non-numeric or zero duration or
      capacity is not refused here but replaced by its default. */
  lemma AdminDefaultsWhereExpertRefuses(body: SlotBody, now: int)
    requires Truthy(body.expertId) && Truthy(body.title) && body.scheduledAt.At? && body.scheduledAt.time >= now
    requires body.duration.None? || body.duration == Some(0)
    requires body.maxStudents.None? || body.maxStudents == Some(0)
    ensures SlotBodyError(body, now) == Some(DurationMsg)
    ensures AdminSlotBodyError(body, now).None?
    ensures AdminDuration(body) == DefaultDuration && AdminCapacity(body) == DefaultMaxStudents
  {
  }

  /** Both routes accept a body the expert's route accepts, with the same
      duration and capacity. */
  lemma ExpertAcceptedIsAdminAccepted(body: SlotBody, now: int)
    requires Truthy(body.expertId)
    requires SlotBodyError(body, now).None?
    ensures AdminSlotBodyError(body, now).None?
    ensures AdminDuration(body) == body.duration.value && AdminCapacity(body) == body.maxStudents.value
  {
  }

  /** The slot created for an acceptable body. */
  function NewAdminSlot(id: string, body: SlotBody): (s: LiveSession)
    requires Truthy(body.expertId) && Truthy(body.title) && body.scheduledAt.At?
    ensures s.id == id && s.expertId == body.expertId.value && s.status == "upcoming"
    ensures s.title == body.title.value && s.description == body.description
    ensures s.scheduledAt == body.scheduledAt.time
    ensures s.sessionType == Or(body.sessionType, DefaultSessionType)
    ensures s.duration == AdminDuration(body) && s.maxStudents == AdminCapacity(body)
  {
    LiveSession(id, body.expertId.value, body.title.value, body.description, Or(body.sessionType, DefaultSessionType),
                body.scheduledAt.time, AdminDuration(body), AdminCapacity(body), "upcoming")
  }

  /** `POST /api/admin/sessions`. The caller must be signed in, but is not
      checked to be an administrator, and the body's `expertId` is not
      looked up. `storeRejects` stands for a failing `liveSession.create`
      (for instance a foreign-key violation of the store), which the
      handler turns into a 500. */
  method CreateAdminSlot(db: Db, identity: Option<string>, body: SlotBody, freshId: string, now: int, storeRejects: bool)
    returns (resp: Response<LiveSession>)
    requires db.Valid()
    requires freshId !in SlotIds(db.sessions)
    modifies db
    ensures db.Valid()
    ensures db.users == old(db.users) && db.experts == old(db.experts) && db.bookings == old(db.bookings)
    ensures identity.None? ==> resp == Fail(Unauthorized, UnauthorizedMsg) && db.sessions == old(db.sessions)
    ensures identity.Some? && AdminSlotBodyError(body, now).Some? ==>
      resp == Fail(BadRequest, AdminSlotBodyError(body, now).value) && db.sessions == old(db.sessions)
    ensures identity.Some? && AdminSlotBodyError(body, now).None? && storeRejects ==>
      resp == Fail(Internal, CreateFailedMsg) && db.sessions == old(db.sessions)
    ensures identity.Some? && AdminSlotBodyError(body, now).None? && !storeRejects ==>
      resp == Ok(NewAdminSlot(freshId, body)) && db.sessions == old(db.sessions) + [resp.value]
  {
    if identity.None? {
      return Fail(Unauthorized, UnauthorizedMsg);
    }
    var error := AdminSlotBodyError(body, now);
    if error.Some? {
      return Fail(BadRequest, error.value);
    }
    if storeRejects {
      return Fail(Internal, CreateFailedMsg);
    }
    var slot := NewAdminSlot(freshId, body);
    AddSlotKeepsConsistent(db.users, db.experts, db.sessions, db.bookings, slot);
    db.sessions := db.sessions + [slot];
    resp := Ok(slot);
  }
}
