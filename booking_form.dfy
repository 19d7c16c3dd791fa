/** The student's booking form: the expert and slot selection it keeps,
    the request it sends, and how it marks a slot as full. */
module BookingFormComponent {
  import opened Common
  import opened Seqs
  import opened Schema
  import BookingsRoute
  import SessionsRoute

  const GroupSessionType := "group_counselling"
  const DefaultDuration := 60

  /** `session._count?.bookings || 0`: the number shown as joined. */
  function ShownCount(count: Option<nat>): (n: nat)
    ensures count.Some? ==> n == count.value
    ensures count.None? ==> n == 0
  {
    if count.Some? then count.value else 0
  }

  /** `session._count?.bookings >= session.maxStudents`: a missing count
      compares as `undefined`, which is never at least anything. */
  predicate IsFull(count: Option<nat>, maxStudents: int)
  {
    count.Some? && count.value >= maxStudents
  }

  /** With its count present, a slot is full exactly when the number shown
      reaches the capacity; without it, the slot is never full, even when
      the shown 0 reaches the capacity. */
  lemma FullMatchesShownCount(count: Option<nat>, maxStudents: int)
    ensures count.Some? ==> (IsFull(count, maxStudents) <==> ShownCount(count) >= maxStudents)
    ensures count.None? ==> !IsFull(count, maxStudents)
  {
  }

  /** A slot from the available-slot listing is never shown as full. */
  lemma ListedSlotNotFull(slots: seq<LiveSession>, bookings: seq<Booking>, expertId: Option<string>, now: int, v: SlotView)
    requires v in SessionsRoute.AvailableSessions(slots, bookings, expertId, now)
    ensures !IsFull(Some(v.bookingCount), v.slot.maxStudents)
  {
    SessionsRoute.ListedSlotsHaveSeats(slots, bookings, expertId, now, v);
  }

  /** The body `handleSubmit` posts for a selected expert and slot: the
      slot's start time and duration are looked up in the loaded list. */
  function FormRequest(expertId: string, slotId: string, listed: seq<SlotView>, notes: string)
    : (r: BookingsRoute.BookingRequest)
    ensures r.expertId == Some(expertId) && r.liveSessionId == Some(slotId)
    ensures r.sessionType == Some(GroupSessionType)
    ensures r.notes == Some(if notes != "" then notes else BookingsRoute.GroupNotes)
    ensures (forall v :: v in listed ==> v.slot.id != slotId) ==> r.scheduledAt == NoDate && r.duration == Some(DefaultDuration)
    ensures forall i :: 0 <= i < |listed| && listed[i].slot.id == slotId && (forall j :: 0 <= j < i ==> listed[j].slot.id != slotId) ==>
      r.scheduledAt == At(listed[i].slot.scheduledAt) &&
      r.duration == Some(if listed[i].slot.duration != 0 then listed[i].slot.duration else DefaultDuration)
  {
    var found := FindFirst(listed, (v: SlotView) => v.slot.id == slotId);
    var scheduledAt := if found.Some? then At(listed[found.value].slot.scheduledAt) else NoDate;
    var duration := if found.Some? && listed[found.value].slot.duration != 0 then listed[found.value].slot.duration
                    else DefaultDuration;
    BookingsRoute.BookingRequest(Some(expertId), Some(GroupSessionType), scheduledAt, Some(duration),
                                 Some(if notes != "" then notes else BookingsRoute.GroupNotes), Some(slotId))
  }

  /** The form's request for a slot picked from the listing is accepted by
      `POST /api/bookings` for a student not yet registered for it, and the
      booking keeps the notes the student typed, or the group default. */
  lemma FormRequestBooks(slots: seq<LiveSession>, bookings: seq<Booking>, expertId: string, listedAt: int,
                         v: SlotView, notes: string, studentId: string, id: string, t: int)
    requires UniqueSlots(slots)
    requires v in SessionsRoute.AvailableSessions(slots, bookings, Some(expertId), listedAt)
    requires v.slot.id != ""
    requires !BookingsRoute.Registered(bookings, studentId, v.slot.id)
    ensures var req := FormRequest(expertId, v.slot.id, SessionsRoute.AvailableSessions(slots, bookings, Some(expertId), listedAt), notes);
            var r := BookingsRoute.PlanBooking(slots, bookings, studentId, req, id, t);
            r.Ok? && r.value.status == "confirmed" && r.value.liveSessionId == Some(v.slot.id) &&
            r.value.notes == Some(if notes != "" then notes else BookingsRoute.GroupNotes)
  {
    var listed := SessionsRoute.AvailableSessions(slots, bookings, Some(expertId), listedAt);
    var req := FormRequest(expertId, v.slot.id, listed, notes);
    assert req.liveSessionId == Some(v.slot.id) && Truthy(req.liveSessionId);
    assert Truthy(req.notes) && req.notes.value == if notes != "" then notes else BookingsRoute.GroupNotes;
    SessionsRoute.ListedSlotIsBookable(slots, bookings, Some(expertId), listedAt, v, studentId, req, id, t);
  }

  /** The form's selection state. */
  class BookingForm {
    var selectedExpert: string
    var liveSessions: seq<SlotView>
    var selectedSession: string
    var notes: string

    constructor()
      ensures selectedExpert == "" && liveSessions == [] && selectedSession == "" && notes == ""
    {
      selectedExpert := "";
      liveSessions := [];
      selectedSession := "";
      notes := "";
    }

    /** Picking an expert (the empty id clears the choice). Clearing it
        empties the slot list and the chosen slot; picking one loads that
        expert's slots (`fetched`, absent when the request fails) and keeps
        the chosen slot as it was. */
    method SelectExpert(id: string, fetched: Option<seq<SlotView>>)
      modifies this
      ensures selectedExpert == id && notes == old(notes)
      ensures id == "" ==> liveSessions == [] && selectedSession == ""
      ensures id != "" ==> selectedSession == old(selectedSession) &&
                           liveSessions == if fetched.Some? then fetched.value else old(liveSessions)
    {
      selectedExpert := id;
      if id == "" {
        liveSessions := [];
        selectedSession := "";
        return;
      }
      if fetched.Some? {
        liveSessions := fetched.value;
      }
    }

    method SelectSlot(id: string)
      modifies this
      ensures selectedSession == id
      ensures selectedExpert == old(selectedExpert) && liveSessions == old(liveSessions) && notes == old(notes)
    {
      selectedSession := id;
    }

    method EditNotes(text: string)
      modifies this
      ensures notes == text
      ensures selectedExpert == old(selectedExpert) && liveSessions == old(liveSessions) &&
              selectedSession == old(selectedSession)
    {
      notes := text;
    }

    /** `handleSubmit`: nothing is sent unless the student is signed in and
        both an expert and a slot are chosen. The second check of the
        handler, for a missing slot, can never fire after the first. */
    method Submit(signedIn: bool) returns (sent: Option<BookingsRoute.BookingRequest>)
      ensures sent.Some? <==> signedIn && selectedExpert != "" && selectedSession != ""
      ensures sent.Some? ==> sent.value == FormRequest(selectedExpert, selectedSession, liveSessions, notes)
    {
      if !signedIn || selectedExpert == "" || selectedSession == "" {
        return None;
      }
      if selectedSession == "" {
        assert false;
      }
      sent := Some(FormRequest(selectedExpert, selectedSession, liveSessions, notes));
    }
  }

  /** Clearing the expert means no request can be sent until an expert and
      a slot are picked again. */
  method ClearedFormSendsNothing(form: BookingForm, signedIn: bool) returns (sent: Option<BookingsRoute.BookingRequest>)
    modifies form
    ensures sent.None?
    ensures form.selectedExpert == "" && form.selectedSession == "" && form.liveSessions == []
  {
    form.SelectExpert("", None);
    sent := form.Submit(signedIn);
  }
}
