/** `POST /api/bookings` and `GET /api/bookings`: the lazy sync of the
    caller's user row, the group-slot and legacy booking paths, the gate on
    the confirmation e-mail, and a student's own listing. */
module BookingsRoute {
  import opened Common
  import opened Seqs
  import opened Text
  import opened Schema
  import opened Store

  /** What the identity provider reports about the caller (`currentUser()`):
      the first e-mail address and the two names, each possibly missing. */
  datatype Profile = Profile(email: Option<string>, firstName: Option<string>, lastName: Option<string>)

  /** The JSON body of a booking request. A truthy `liveSessionId` selects
      the group path; otherwise the legacy fields are used. */
  datatype BookingRequest = BookingRequest(
    expertId: Option<string>,
    sessionType: Option<string>,
    scheduledAt: DateField,
    duration: Option<int>,
    notes: Option<string>,
    liveSessionId: Option<string>)

  /** The expert display fields attached to a created booking. */
  datatype ExpertContact = ExpertContact(firstName: string, lastName: string, email: string)

  /** The `booking` object of a successful reply. */
  datatype BookingReply = BookingReply(
    id: string,
    scheduledAt: int,
    duration: int,
    sessionType: string,
    status: string,
    expert: Option<ExpertContact>,
    notes: Option<string>)

  const PlaceholderDomain := "@clerk.user"
  const GroupNotes := "Group Session Registration"
  const DefaultDuration := 60

  const UnauthorizedMsg := "Unauthorized"
  const SlotNotFoundMsg := "Session slot not found"
  const NoLongerAvailableMsg := "Session is no longer available"
  const SessionFullMsg := "Session is full"
  const AlreadyRegisteredMsg := "You have already registered for this session"
  const MissingFieldsMsg := "Missing required fields"
  const InternalMsg := "Internal server error"

  // ----- lazy user sync -----

  /** An e-mail address synthesized for an account the provider reports
      no address for. */
  predicate IsPlaceholder(email: string)
  {
    Contains(email, PlaceholderDomain)
  }

  /** The provider's first address, or `<clerkId>@clerk.user`. */
  function ProviderEmail(clerkId: string, profile: Option<Profile>): (e: string)
    ensures profile.Some? && Truthy(profile.value.email) ==> e == profile.value.email.value
    ensures !(profile.Some? && Truthy(profile.value.email)) ==> e == clerkId + PlaceholderDomain && IsPlaceholder(e)
  {
    if profile.Some? && Truthy(profile.value.email) then profile.value.email.value
    else
      ContainsSuffix(clerkId, PlaceholderDomain);
      clerkId + PlaceholderDomain
  }

  function FirstNameOf(profile: Option<Profile>): string
  {
    if profile.Some? then Or(profile.value.firstName, "Student") else "Student"
  }

  function LastNameOf(profile: Option<Profile>): string
  {
    if profile.Some? then Or(profile.value.lastName, "") else ""
  }

  /** `user.update({ where: { id }, data: { email } })`. */
  function WithEmail(users: seq<User>, id: string, email: string): (r: seq<User>)
    ensures |r| == |users|
    ensures forall i :: 0 <= i < |users| ==> r[i] == if users[i].id == id then users[i].(email := email) else users[i]
  {
    seq(|users|, i requires 0 <= i < |users| => if users[i].id == id then users[i].(email := email) else users[i])
  }

  /** The user table after the sync: a missing caller is created with the
      provider's data and the defaults "Student" and ""; a caller whose
      stored address is a placeholder gets the provider's address; anyone
      else is left alone. */
  function SyncedUsers(users: seq<User>, clerkId: string, profile: Option<Profile>, freshId: string): (r: seq<User>)
    requires UniqueUsers(users)
    // only the caller can be added, and only when missing
    ensures UserByClerkId(users, clerkId).None? ==>
      |r| == |users| + 1 && r[..|users|] == users &&
      r[|users|] == User(freshId, clerkId, ProviderEmail(clerkId, profile), FirstNameOf(profile), LastNameOf(profile))
    ensures UserByClerkId(users, clerkId).Some? ==> |r| == |users|
    // no row but the caller's changes, and of the caller's only the e-mail
    ensures forall i :: 0 <= i < |users| ==>
      r[i].id == users[i].id && r[i].clerkId == users[i].clerkId &&
      r[i].firstName == users[i].firstName && r[i].lastName == users[i].lastName
    ensures forall i :: 0 <= i < |users| && r[i] != users[i] ==>
      users[i].clerkId == clerkId && IsPlaceholder(users[i].email) && r[i].email == ProviderEmail(clerkId, profile)
    // a placeholder address of the caller is always refreshed
    ensures forall i :: 0 <= i < |users| && users[i].clerkId == clerkId && IsPlaceholder(users[i].email) ==>
      r[i].email == ProviderEmail(clerkId, profile)
  {
    var found := UserByClerkId(users, clerkId);
    if found.None? then users + [User(freshId, clerkId, ProviderEmail(clerkId, profile), FirstNameOf(profile), LastNameOf(profile))]
    else if IsPlaceholder(found.value.email) then
      var r := WithEmail(users, found.value.id, ProviderEmail(clerkId, profile));
      forall i | 0 <= i < |users| && users[i].clerkId == clerkId
        ensures users[i] == found.value
      {
        var j :| 0 <= j < |users| && users[j] == found.value;
        assert i == j;
      }
      forall i | 0 <= i < |users| && users[i].id == found.value.id
        ensures users[i] == found.value
      {
        var j :| 0 <= j < |users| && users[j] == found.value;
        assert i == j;
      }
      r
    else
      forall i | 0 <= i < |users| && users[i].clerkId == clerkId
        ensures users[i] == found.value
      {
        var j :| 0 <= j < |users| && users[j] == found.value;
        assert i == j;
      }
      users
  }

  /** After the sync the caller has a user row. */
  lemma SyncedUserExists(users: seq<User>, clerkId: string, profile: Option<Profile>, freshId: string)
    requires UniqueUsers(users)
    ensures UserByClerkId(SyncedUsers(users, clerkId, profile, freshId), clerkId).Some?
  {
    var r := SyncedUsers(users, clerkId, profile, freshId);
    var found := UserByClerkId(users, clerkId);
    if found.None? {
      assert r[|users|] in r;
    } else {
      var j :| 0 <= j < |users| && users[j] == found.value;
      assert r[j] in r && r[j].clerkId == clerkId;
    }
  }

  /** The sync keeps user ids and identity references unique. */
  lemma SyncKeepsUsersUnique(users: seq<User>, clerkId: string, profile: Option<Profile>, freshId: string)
    requires UniqueUsers(users)
    requires freshId !in UserIds(users)
    ensures UniqueUsers(SyncedUsers(users, clerkId, profile, freshId))
  {
    var r := SyncedUsers(users, clerkId, profile, freshId);
    if UserByClerkId(users, clerkId).None? {
      forall i, j | 0 <= i < j < |r| ensures r[i].id != r[j].id && r[i].clerkId != r[j].clerkId {
        if j == |users| {
          assert users[i] in users;
        }
      }
    }
  }

  /** The user row the sync leaves for the caller. */
  function SyncedUser(users: seq<User>, clerkId: string, profile: Option<Profile>, freshId: string): (u: User)
    requires UniqueUsers(users)
    ensures u.clerkId == clerkId && u in SyncedUsers(users, clerkId, profile, freshId)
  {
    SyncedUserExists(users, clerkId, profile, freshId);
    UserByClerkId(SyncedUsers(users, clerkId, profile, freshId), clerkId).value
  }

  /** The lazy sync, step by step on the store. */
  method SyncUser(db: Db, clerkId: string, profile: Option<Profile>, freshId: string) returns (user: User)
    requires db.Valid()
    requires freshId !in UserIds(db.users)
    modifies db
    ensures db.users == SyncedUsers(old(db.users), clerkId, profile, freshId)
    ensures db.experts == old(db.experts) && db.sessions == old(db.sessions) && db.bookings == old(db.bookings)
    ensures db.Valid()
    ensures user == SyncedUser(old(db.users), clerkId, profile, freshId)
  {
    ghost var before := db.users;
    SyncKeepsUsersUnique(before, clerkId, profile, freshId);
    var found := UserByClerkId(db.users, clerkId);
    if found.None? {
      user := User(freshId, clerkId, ProviderEmail(clerkId, profile), FirstNameOf(profile), LastNameOf(profile));
      db.users := db.users + [user];
    } else if IsPlaceholder(found.value.email) {
      db.users := WithEmail(db.users, found.value.id, ProviderEmail(clerkId, profile));
      user := found.value.(email := ProviderEmail(clerkId, profile));
    } else {
      user := found.value;
    }
    assert db.users == SyncedUsers(before, clerkId, profile, freshId);
    assert user in db.users && user.clerkId == clerkId;
    UniqueUserByClerkId(db.users, user);
  }

  /** In a table with unique identity references, the lookup finds the one row. */
  lemma UniqueUserByClerkId(users: seq<User>, u: User)
    requires UniqueUsers(users)
    requires u in users
    ensures UserByClerkId(users, u.clerkId) == Some(u)
  {
    var r := UserByClerkId(users, u.clerkId).value;
    var i :| 0 <= i < |users| && users[i] == u;
    var j :| 0 <= j < |users| && users[j] == r;
    assert i == j;
  }

  // ----- the booking paths -----

  /** Some booking of `studentId` references slot `slotId`, whatever its status. */
  predicate Registered(bookings: seq<Booking>, studentId: string, slotId: string)
  {
    exists i :: 0 <= i < |bookings| && bookings[i].studentId == studentId && bookings[i].liveSessionId == Some(slotId)
  }

  /** The booking the handler inserts for student `studentId` (already
      synced), or the error it replies with. `id` and `now` stand for the
      fresh row id and the creation time the store assigns. */
  function PlanBooking(slots: seq<LiveSession>, bookings: seq<Booking>, studentId: string,
                       req: BookingRequest, id: string, now: int): (r: Response<Booking>)
    ensures r.Ok? ==> r.value.id == id && r.value.studentId == studentId && r.value.createdAt == now
    ensures r.Ok? ==> (r.value.liveSessionId.Some? <==> Truthy(req.liveSessionId))
    // group path: the four checks, in this order
    ensures Truthy(req.liveSessionId) ==>
      var sid := req.liveSessionId.value;
      var slot := SlotById(slots, sid);
      (slot.None? ==> r == Fail(NotFound, SlotNotFoundMsg)) &&
      (slot.Some? && slot.value.status != "upcoming" ==> r == Fail(BadRequest, NoLongerAvailableMsg)) &&
      (slot.Some? && slot.value.status == "upcoming" && SlotCount(bookings, sid) >= slot.value.maxStudents ==>
         r == Fail(BadRequest, SessionFullMsg)) &&
      ((slot.Some? && slot.value.status == "upcoming" && SlotCount(bookings, sid) < slot.value.maxStudents &&
        Registered(bookings, studentId, sid)) ==> r == Fail(BadRequest, AlreadyRegisteredMsg)) &&
      (r.Ok? <==> slot.Some? && slot.value.status == "upcoming" && SlotCount(bookings, sid) < slot.value.maxStudents &&
                  !Registered(bookings, studentId, sid))
    // group path: the slot decides everything but the notes
    ensures Truthy(req.liveSessionId) && r.Ok? ==>
      var slot := SlotById(slots, req.liveSessionId.value).value;
      r.value.liveSessionId == Some(slot.id) && r.value.expertId == slot.expertId &&
      r.value.sessionType == slot.sessionType && r.value.scheduledAt == slot.scheduledAt &&
      r.value.duration == slot.duration && r.value.status == "confirmed" &&
      r.value.notes == Some(if Truthy(req.notes) then req.notes.value else GroupNotes)
    // legacy path: three required fields, no conflict or past-date check
    ensures !Truthy(req.liveSessionId) ==>
      (!Truthy(req.expertId) || !Truthy(req.sessionType) || req.scheduledAt.NoDate? ==> r == Fail(BadRequest, MissingFieldsMsg)) &&
      (r.Ok? <==> Truthy(req.expertId) && Truthy(req.sessionType) && req.scheduledAt.At?)
    // legacy path: the store refuses an invalid date, and the catch answers 500
    ensures !Truthy(req.liveSessionId) && Truthy(req.expertId) && Truthy(req.sessionType) && req.scheduledAt.BadDate? ==>
      r == Fail(Internal, InternalMsg)
    ensures !Truthy(req.liveSessionId) && r.Ok? ==>
      r.value.status == "pending" && r.value.liveSessionId.None? &&
      r.value.expertId == req.expertId.value && r.value.sessionType == req.sessionType.value &&
      r.value.scheduledAt == req.scheduledAt.time && r.value.notes == req.notes &&
      r.value.duration == (if req.duration.Some? && req.duration.value != 0 then req.duration.value else DefaultDuration)
  {
    if Truthy(req.liveSessionId) then
      var sid := req.liveSessionId.value;
      var slot := SlotById(slots, sid);
      if slot.None? then Fail(NotFound, SlotNotFoundMsg)
      else if slot.value.status != "upcoming" then Fail(BadRequest, NoLongerAvailableMsg)
      else if SlotCount(bookings, sid) >= slot.value.maxStudents then Fail(BadRequest, SessionFullMsg)
      else if Registered(bookings, studentId, sid) then Fail(BadRequest, AlreadyRegisteredMsg)
      else
        var s := slot.value;
        Ok(Booking(id, studentId, s.expertId, Some(s.id), s.sessionType, s.scheduledAt, s.duration,
                   Some(Or(req.notes, GroupNotes)), "confirmed", now))
    else if !Truthy(req.expertId) || !Truthy(req.sessionType) || req.scheduledAt.NoDate? then
      Fail(BadRequest, MissingFieldsMsg)
    else if req.scheduledAt.BadDate? then
      // the store refuses an invalid Date; the handler's catch replies 500
      Fail(Internal, InternalMsg)
    else
      Ok(Booking(id, studentId, req.expertId.value, None, req.sessionType.value, req.scheduledAt.time,
                 OrNumber(req.duration, DefaultDuration), req.notes, "pending", now))
  }

  /** Inserting a planned booking keeps the store consistent: a group
      booking finds a seat left and no earlier registration of its student,
      and a legacy booking references no slot. So, over any sequence of
      requests, no slot holds more bookings than `maxStudents` and no
      student holds two bookings of one slot. */
  lemma {:induction false} PlanKeepsConsistent(users: seq<User>, experts: seq<Expert>, slots: seq<LiveSession>,
                                               bookings: seq<Booking>, studentId: string, req: BookingRequest,
                                               id: string, now: int)
    requires Consistent(users, experts, slots, bookings)
    requires id !in BookingIds(bookings)
    requires PlanBooking(slots, bookings, studentId, req, id, now).Ok?
    ensures Consistent(users, experts, slots, bookings + [PlanBooking(slots, bookings, studentId, req, id, now).value])
  {
    var b := PlanBooking(slots, bookings, studentId, req, id, now).value;
    var r := bookings + [b];
    forall s | s in slots ensures SlotCount(r, s.id) <= s.maxStudents {
      SlotCountAppend(bookings, b, s.id);
      if b.liveSessionId == Some(s.id) {
        var slot := SlotById(slots, req.liveSessionId.value).value;
        var i :| 0 <= i < |slots| && slots[i] == s;
        var j :| 0 <= j < |slots| && slots[j] == slot;
        assert slots[i].id == slots[j].id;
        assert i == j;
      }
    }
    forall i, j | 0 <= i < j < |r| && r[i].liveSessionId.Some?
      ensures !(r[i].liveSessionId == r[j].liveSessionId && r[i].studentId == r[j].studentId)
    {
      if j == |bookings| {
        assert r[i] == bookings[i];
      }
    }
    forall i, j | 0 <= i < j < |r| ensures r[i].id != r[j].id {
      if j == |bookings| {
        assert bookings[i] in bookings;
      }
    }
    forall x | x in r && x.liveSessionId.Some? ensures exists s :: s in slots && s.id == x.liveSessionId.value {
      if x == b {
        var slot := SlotById(slots, req.liveSessionId.value).value;
        assert slot in slots && slot.id == x.liveSessionId.value;
      } else {
        assert x in bookings;
      }
    }
  }

  /** Cancelling a booking (or changing its status in any way) changes the
      outcome of no later booking request: the seat stays taken and its
      student stays registered. */
  lemma CancellingFreesNoSeat(slots: seq<LiveSession>, bookings: seq<Booking>, k: nat, status: string,
                              studentId: string, req: BookingRequest, id: string, now: int)
    requires k < |bookings|
    ensures PlanBooking(slots, bookings[k := bookings[k].(status := status)], studentId, req, id, now)
         == PlanBooking(slots, bookings, studentId, req, id, now)
  {
    var after := bookings[k := bookings[k].(status := status)];
    assert SameSlotRefs(bookings, after);
    if Truthy(req.liveSessionId) {
      var sid := req.liveSessionId.value;
      SlotCountIgnoresStatus(bookings, after, sid);
      if Registered(bookings, studentId, sid) {
        var i :| 0 <= i < |bookings| && bookings[i].studentId == studentId && bookings[i].liveSessionId == Some(sid);
        assert after[i].studentId == studentId && after[i].liveSessionId == Some(sid);
      }
      if Registered(after, studentId, sid) {
        var i :| 0 <= i < |after| && after[i].studentId == studentId && after[i].liveSessionId == Some(sid);
        assert bookings[i].studentId == studentId && bookings[i].liveSessionId == Some(sid);
      }
    }
  }

  // ----- the confirmation e-mail -----

  /** An e-mail is attempted only to a non-empty, non-placeholder address. */
  predicate Notifies(email: string)
  {
    email != "" && !IsPlaceholder(email)
  }

  /** When the provider reports no address for the caller, the address the
      confirmation goes to is the one the sync leaves on the caller's row:
      a new caller or one with a placeholder address is never e-mailed, and
      a caller with a real stored address is e-mailed there, whatever the
      provider reports. */
  lemma NoMailWithoutProviderEmail(users: seq<User>, clerkId: string, profile: Option<Profile>, freshId: string)
    requires UniqueUsers(users)
    requires !(profile.Some? && Truthy(profile.value.email))
    ensures var stored := UserByClerkId(users, clerkId);
            var u := SyncedUser(users, clerkId, profile, freshId);
            (Notifies(u.email) <==> stored.Some? && Notifies(stored.value.email)) &&
            (stored.Some? && Notifies(stored.value.email) ==> u.email == stored.value.email)
  {
    var stored := UserByClerkId(users, clerkId);
    var r := SyncedUsers(users, clerkId, profile, freshId);
    var u := SyncedUser(users, clerkId, profile, freshId);
    var k :| 0 <= k < |r| && r[k] == u;
    if stored.None? {
      assert u.email == ProviderEmail(clerkId, profile);
    } else {
      var j :| 0 <= j < |users| && users[j] == stored.value;
      assert users[k].clerkId == clerkId;
      assert k == j;
      if IsPlaceholder(users[j].email) {
        assert u.email == ProviderEmail(clerkId, profile);
      } else {
        assert r[j] == users[j];
      }
    }
  }

  function Reply(b: Booking, experts: seq<Expert>): (r: BookingReply)
    ensures r.id == b.id && r.status == b.status && r.scheduledAt == b.scheduledAt
    ensures r.duration == b.duration && r.sessionType == b.sessionType && r.notes == b.notes
    ensures r.expert.Some? <==> ExpertById(experts, b.expertId).Some?
    ensures r.expert.Some? ==> var e := ExpertById(experts, b.expertId).value;
                              r.expert.value == ExpertContact(e.firstName, e.lastName, e.email)
  {
    var e := ExpertById(experts, b.expertId);
    BookingReply(b.id, b.scheduledAt, b.duration, b.sessionType, b.status,
                 if e.Some? then Some(ExpertContact(e.value.firstName, e.value.lastName, e.value.email)) else None,
                 b.notes)
  }

  /** `POST /api/bookings`. `identity` is the caller's identity-provider id
      (absent when signed out), `profile` what the provider reports about
      the caller, `freshUserId`/`freshBookingId` the ids the store would
      give new rows and `now` the current time. `emailTo` is the address a
      confirmation is attempted to; a failed send is caught, so the reply
      does not depend on it. */
  method CreateBooking(db: Db, identity: Option<string>, profile: Option<Profile>, req: BookingRequest,
                       freshUserId: string, freshBookingId: string, now: int)
    returns (resp: Response<BookingReply>, emailTo: Option<string>)
    requires db.Valid()
    requires freshUserId !in UserIds(db.users)
    requires freshBookingId !in BookingIds(db.bookings)
    modifies db
    ensures db.Valid()
    ensures db.experts == old(db.experts) && db.sessions == old(db.sessions)
    ensures identity.None? ==>
      resp == Fail(Unauthorized, UnauthorizedMsg) && emailTo.None? &&
      db.users == old(db.users) && db.bookings == old(db.bookings)
    // the sync happens before, and whatever the outcome of, the booking checks
    ensures identity.Some? ==> db.users == SyncedUsers(old(db.users), identity.value, profile, freshUserId)
    ensures identity.Some? ==>
      var student := SyncedUser(old(db.users), identity.value, profile, freshUserId);
      var plan := PlanBooking(old(db.sessions), old(db.bookings), student.id, req, freshBookingId, now);
      (plan.Ok? ==>
         db.bookings == old(db.bookings) + [plan.value] && resp == Ok(Reply(plan.value, db.experts)) &&
         emailTo == (if Notifies(student.email) then Some(student.email) else None)) &&
      (plan.Fail? ==>
         db.bookings == old(db.bookings) && resp == Fail(plan.kind, plan.message) && emailTo.None?)
  {
    if identity.None? {
      return Fail(Unauthorized, UnauthorizedMsg), None;
    }
    var student := SyncUser(db, identity.value, profile, freshUserId);
    var plan := PlanBooking(db.sessions, db.bookings, student.id, req, freshBookingId, now);
    if plan.Fail? {
      return Fail(plan.kind, plan.message), None;
    }
    PlanKeepsConsistent(db.users, db.experts, db.sessions, db.bookings, student.id, req, freshBookingId, now);
    db.bookings := db.bookings + [plan.value];
    resp := Ok(Reply(plan.value, db.experts));
    emailTo := if Notifies(student.email) then Some(student.email) else None;
  }

  // ----- GET -----

  /** The booking belongs to the user whose identity reference is `clerkId`
      (`where: { student: { clerkId } }`). */
  predicate OwnedBy(users: seq<User>, clerkId: string, b: Booking)
  {
    exists u :: u in users && u.id == b.studentId && u.clerkId == clerkId
  }

  /** `GET /api/bookings`: the caller's bookings, latest first. */
  function StudentBookings(users: seq<User>, bookings: seq<Booking>, identity: Option<string>): (r: Response<seq<Booking>>)
    ensures identity.None? <==> r == Fail(Unauthorized, UnauthorizedMsg)
    ensures r.Ok? ==> forall b :: b in r.value <==> b in bookings && OwnedBy(users, identity.value, b)
    ensures r.Ok? ==> forall b :: multiset(r.value)[b] == if OwnedBy(users, identity.value, b) then multiset(bookings)[b] else 0
    ensures r.Ok? ==> forall i, j :: 0 <= i < j < |r.value| ==> r.value[i].scheduledAt >= r.value[j].scheduledAt
  {
    if identity.None? then Fail(Unauthorized, UnauthorizedMsg)
    else
      var q := Query(bookings, (b: Booking) => OwnedBy(users, identity.value, b), BookingTimeDesc);
      assert forall i, j :: 0 <= i < j < |q| ==> BookingTimeDesc(q[i]) <= BookingTimeDesc(q[j]);
      Ok(q)
  }
}
