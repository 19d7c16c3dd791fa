/** The four tables of the booking store, the lookups the handlers make on
    them, the live booking count of a slot, and the consistency invariant
    the mutating handlers keep. */
module Schema {
  import opened Common
  import opened Seqs

  /** A student account linked to an identity-provider id (`clerkId`). */
  datatype User = User(id: string, clerkId: string, email: string, firstName: string, lastName: string)

  /** A counsellor. `clerkId` is absent until the expert has an identity of
      their own; `isDeleted` marks an archived (soft-deleted) expert. */
  datatype Expert = Expert(
    id: string,
    clerkId: Option<string>,
    email: string,
    firstName: string,
    lastName: string,
    specialization: seq<string>,
    bio: string,
    experience: int,
    rating: int,
    isActive: bool,
    isDeleted: bool,
    createdAt: int,
    updatedAt: int)

  /** A group slot an expert hosts, with a fixed capacity. */
  datatype LiveSession = LiveSession(
    id: string,
    expertId: string,
    title: string,
    description: Option<string>,
    sessionType: string,
    scheduledAt: int,
    duration: int,
    maxStudents: int,
    status: string)

  /** A student's booking: of a slot (group path, `liveSessionId` present)
      or a standalone request (legacy path). */
  datatype Booking = Booking(
    id: string,
    studentId: string,
    expertId: string,
    liveSessionId: Option<string>,
    sessionType: string,
    scheduledAt: int,
    duration: int,
    notes: Option<string>,
    status: string,
    createdAt: int)

  /** A slot annotated with its booking count (`_count.bookings`). */
  datatype SlotView = SlotView(slot: LiveSession, bookingCount: nat)

  // ----- lookups (`findUnique`) -----

  function UserByClerkId(users: seq<User>, clerkId: string): (r: Option<User>)
    ensures r.Some? ==> r.value in users && r.value.clerkId == clerkId
    ensures r.None? <==> forall u :: u in users ==> u.clerkId != clerkId
  {
    var i := FindFirst(users, (u: User) => u.clerkId == clerkId);
    if i.Some? then Some(users[i.value]) else None
  }

  function UserById(users: seq<User>, id: string): (r: Option<User>)
    ensures r.Some? ==> r.value in users && r.value.id == id
    ensures r.None? <==> forall u :: u in users ==> u.id != id
  {
    var i := FindFirst(users, (u: User) => u.id == id);
    if i.Some? then Some(users[i.value]) else None
  }

  function ExpertByClerkId(experts: seq<Expert>, clerkId: string): (r: Option<Expert>)
    ensures r.Some? ==> r.value in experts && r.value.clerkId == Some(clerkId)
    ensures r.None? <==> forall e :: e in experts ==> e.clerkId != Some(clerkId)
  {
    var i := FindFirst(experts, (e: Expert) => e.clerkId == Some(clerkId));
    if i.Some? then Some(experts[i.value]) else None
  }

  function ExpertById(experts: seq<Expert>, id: string): (r: Option<Expert>)
    ensures r.Some? ==> r.value in experts && r.value.id == id
    ensures r.None? <==> forall e :: e in experts ==> e.id != id
  {
    var i := FindFirst(experts, (e: Expert) => e.id == id);
    if i.Some? then Some(experts[i.value]) else None
  }

  function SlotById(slots: seq<LiveSession>, id: string): (r: Option<LiveSession>)
    ensures r.Some? ==> r.value in slots && r.value.id == id
    ensures r.None? <==> forall s :: s in slots ==> s.id != id
  {
    var i := FindFirst(slots, (s: LiveSession) => s.id == id);
    if i.Some? then Some(slots[i.value]) else None
  }

  // ----- the live booking count of a slot -----

  /** A booking occupies a seat of slot `slotId`. */
  function RefersTo(slotId: string): Booking -> bool
  {
    (b: Booking) => b.liveSessionId == Some(slotId)
  }

  /** The number of bookings that reference slot `slotId`, whatever their
      status: the `_count.bookings` the handlers compare with `maxStudents`. */
  function SlotCount(bookings: seq<Booking>, slotId: string): (n: nat)
    ensures n <= |bookings|
    ensures n == 0 <==> forall b :: b in bookings ==> b.liveSessionId != Some(slotId)
  {
    CountWhere(bookings, RefersTo(slotId))
  }

  lemma SlotCountAppend(bookings: seq<Booking>, b: Booking, slotId: string)
    ensures SlotCount(bookings + [b], slotId)
         == SlotCount(bookings, slotId) + (if b.liveSessionId == Some(slotId) then 1 else 0)
  {
    CountWhereAppend(bookings, b, RefersTo(slotId));
  }

  /** Two booking tables that agree on which slot each row references. */
  ghost predicate SameSlotRefs(xs: seq<Booking>, ys: seq<Booking>)
  {
    |xs| == |ys| && forall i :: 0 <= i < |xs| ==> xs[i].liveSessionId == ys[i].liveSessionId
  }

  /** Changing the status of bookings (to "cancelled", say) does not change
      any slot's count: a cancelled booking still occupies its seat. */
  lemma SlotCountIgnoresStatus(xs: seq<Booking>, ys: seq<Booking>, slotId: string)
    requires SameSlotRefs(xs, ys)
    ensures SlotCount(xs, slotId) == SlotCount(ys, slotId)
  {
    CountWhereAgrees(xs, ys, RefersTo(slotId));
  }

  /** Each slot with its live booking count, in the same order. */
  function WithCounts(slots: seq<LiveSession>, bookings: seq<Booking>): (r: seq<SlotView>)
    ensures |r| == |slots|
    ensures forall i :: 0 <= i < |r| ==> r[i].slot == slots[i]
    ensures forall i :: 0 <= i < |r| ==> r[i].bookingCount == SlotCount(bookings, slots[i].id)
  {
    seq(|slots|, i requires 0 <= i < |slots| => SlotView(slots[i], SlotCount(bookings, slots[i].id)))
  }

  /** A view is in `WithCounts` exactly when it pairs a slot of the table
      with that slot's live count. */
  lemma InWithCounts(slots: seq<LiveSession>, bookings: seq<Booking>, v: SlotView)
    ensures v in WithCounts(slots, bookings) <==> v.slot in slots && v.bookingCount == SlotCount(bookings, v.slot.id)
  {
    var w := WithCounts(slots, bookings);
    if v.slot in slots && v.bookingCount == SlotCount(bookings, v.slot.id) {
      var i :| 0 <= i < |slots| && slots[i] == v.slot;
      assert w[i] == v;
    }
  }

  // ----- sort keys (`orderBy`); a descending order sorts on the negated key -----

  function BookingTimeDesc(b: Booking): int { -b.scheduledAt }
  function BookingCreatedDesc(b: Booking): int { -b.createdAt }
  function ViewTimeAsc(v: SlotView): int { v.slot.scheduledAt }
  function ViewTimeDesc(v: SlotView): int { -v.slot.scheduledAt }
  function ExpertCreatedDesc(e: Expert): int { -e.createdAt }
  function ExpertUpdatedDesc(e: Expert): int { -e.updatedAt }

  // ----- the consistency invariant -----

  ghost predicate UniqueUsers(users: seq<User>)
  {
    forall i, j :: 0 <= i < j < |users| ==> users[i].id != users[j].id && users[i].clerkId != users[j].clerkId
  }

  /** Expert ids, emails and (present) clerkIds are unique. */
  ghost predicate UniqueExperts(experts: seq<Expert>)
  {
    forall i, j :: 0 <= i < j < |experts| ==>
      experts[i].id != experts[j].id && experts[i].email != experts[j].email &&
      (experts[i].clerkId.Some? ==> experts[i].clerkId != experts[j].clerkId)
  }

  ghost predicate UniqueSlots(slots: seq<LiveSession>)
  {
    forall i, j :: 0 <= i < j < |slots| ==> slots[i].id != slots[j].id
  }

  ghost predicate UniqueBookings(bookings: seq<Booking>)
  {
    forall i, j :: 0 <= i < j < |bookings| ==> bookings[i].id != bookings[j].id
  }

  /** Every slot reference of a booking names an existing slot. */
  ghost predicate SlotRefsResolve(slots: seq<LiveSession>, bookings: seq<Booking>)
  {
    forall b :: b in bookings && b.liveSessionId.Some? ==> exists s :: s in slots && s.id == b.liveSessionId.value
  }

  /** No slot holds more bookings than its capacity. */
  ghost predicate WithinCapacity(slots: seq<LiveSession>, bookings: seq<Booking>)
  {
    forall s :: s in slots ==> SlotCount(bookings, s.id) <= s.maxStudents
  }

  /** A student holds at most one booking of any one slot. */
  ghost predicate SingleRegistration(bookings: seq<Booking>)
  {
    forall i, j :: 0 <= i < j < |bookings| && bookings[i].liveSessionId.Some? ==>
      !(bookings[i].liveSessionId == bookings[j].liveSessionId && bookings[i].studentId == bookings[j].studentId)
  }

  ghost predicate Consistent(users: seq<User>, experts: seq<Expert>, slots: seq<LiveSession>, bookings: seq<Booking>)
  {
    UniqueUsers(users) && UniqueExperts(experts) && UniqueSlots(slots) && UniqueBookings(bookings) &&
    SlotRefsResolve(slots, bookings) && WithinCapacity(slots, bookings) && SingleRegistration(bookings)
  }

  /** A new slot with a fresh id keeps the store consistent: no booking
      can reference it yet, so it starts with no seat taken. */
  lemma AddSlotKeepsConsistent(users: seq<User>, experts: seq<Expert>, slots: seq<LiveSession>,
                               bookings: seq<Booking>, s: LiveSession)
    requires Consistent(users, experts, slots, bookings)
    requires s.id !in SlotIds(slots)
    requires s.maxStudents >= 0
    ensures Consistent(users, experts, slots + [s], bookings)
  {
    var r := slots + [s];
    forall i, j | 0 <= i < j < |r| ensures r[i].id != r[j].id {
      if j == |slots| {
        assert slots[i] in slots;
      }
    }
    forall b | b in bookings ensures b.liveSessionId != Some(s.id) {
      if b.liveSessionId.Some? {
        var t :| t in slots && t.id == b.liveSessionId.value;
      }
    }
    assert SlotCount(bookings, s.id) == 0;
  }

  // ----- id sets, for fresh-id preconditions -----

  ghost function UserIds(users: seq<User>): set<string> { set u | u in users :: u.id }
  ghost function ExpertIds(experts: seq<Expert>): set<string> { set e | e in experts :: e.id }
  ghost function SlotIds(slots: seq<LiveSession>): set<string> { set s | s in slots :: s.id }
  ghost function BookingIds(bookings: seq<Booking>): set<string> { set b | b in bookings :: b.id }
}
