/** The expert's dashboard: the slot and profile forms with their checks,
    the requests they send, the form state they set and reset, and the two
    figures derived from the loaded lists. */
module ExpertDashboardComponent {
  import opened Common
  import opened Seqs
  import opened Text
  import opened Schema
  import ExpertSessionsRoute
  import AdminSessionsRoute
  import ExpertProfileRoute
  import ExpertBookingsRoute

  // ----- the forms -----

  /** The new-slot form, every field as typed; the date input is held as
      the date it denotes. */
  datatype SessionForm = SessionForm(
    title: string,
    description: string,
    sessionType: string,
    scheduledAt: DateField,
    duration: string,
    maxStudents: string)

  /** The profile form, every field as typed. */
  datatype ProfileForm = ProfileForm(bio: string, specialization: string, experience: string)

  /** The slot form as it opens, and as it is reset after a slot is made. */
  const DefaultSessionForm := SessionForm("", "", "group_counselling", NoDate, "60", "50")

  const EmptyProfileForm := ProfileForm("", "", "")

  const InvalidExperienceTitle := "Invalid Experience"
  const IncompleteProfileTitle := "Incomplete Profile"
  const UpdateFailedTitle := "Update Failed"
  const InvalidDurationTitle := "Invalid Duration"
  const InvalidCapacityTitle := "Invalid Capacity"
  const SchedulingFailedTitle := "Scheduling Failed"

  // ----- the profile form -----

  /** The title of the alert `handleUpdateProfile` raises before sending:
      an experience that is not a number or is negative, then a blank
      specialization; `None` when the form is sent. */
  function ProfileAlert(form: ProfileForm): Option<string>
  {
    var exp := ParseInt(form.experience);
    if exp.None? || exp.value < 0 then Some(InvalidExperienceTitle)
    else if AllSpace(form.specialization) then Some(IncompleteProfileTitle)
    else None
  }

  /** The two checks, in order: the experience is checked before the
      specialization, and the form is sent exactly when both pass. */
  lemma ProfileAlertOrder(form: ProfileForm)
    ensures (ParseInt(form.experience).None? || ParseInt(form.experience).value < 0) ==>
            ProfileAlert(form) == Some(InvalidExperienceTitle)
    ensures (ParseInt(form.experience).Some? && ParseInt(form.experience).value >= 0 && Trim(form.specialization) == "") ==>
            ProfileAlert(form) == Some(IncompleteProfileTitle)
    ensures ProfileAlert(form).None? <==>
            (ParseInt(form.experience).Some? && ParseInt(form.experience).value >= 0 && Trim(form.specialization) != "")
  {
    TrimFacts(form.specialization);
  }

  /** The body `PATCH /api/expert/profile` receives: the form's three
      strings, `experience` read by the route through `parseInt`. */
  function ProfileRequest(form: ProfileForm): (b: ExpertProfileRoute.ProfileBody)
    ensures b.bio == Some(form.bio)
    ensures b.specialization == ExpertProfileRoute.SpecText(form.specialization)
    ensures b.experience == Given(ParseInt(form.experience))
  {
    ExpertProfileRoute.ProfileBody(Some(form.bio), ExpertProfileRoute.SpecText(form.specialization),
                                   Given(ParseInt(form.experience)))
  }

  /** The form's experience check is at least as strict as the route's: a
      form the dashboard sends never draws the route's 400. */
  lemma SentProfilePassesRoute(form: ProfileForm)
    requires ProfileAlert(form).None?
    ensures ExpertProfileRoute.ExperienceOk(ProfileRequest(form).experience)
  {
  }

  /** The form filled in from a loaded expert: the bio, the tags joined
      with ", " and the experience written out in decimal. */
  function PrefilledForm(e: Expert): ProfileForm
  {
    ProfileForm(e.bio, JoinTags(e.specialization), IntToString(e.experience))
  }

  /** Saving the prefilled form unchanged passes the form's checks and
      writes back the same row, only stamped anew, provided the expert has
      at least one tag, every tag is non-empty, trimmed and comma-free, and
      the experience is not negative. */
  lemma PrefilledProfileSavesUnchanged(e: Expert, now: int)
    requires e.specialization != []
    requires forall t :: t in e.specialization ==> t != "" && Trimmed(t) && ',' !in t
    requires e.experience >= 0
    ensures ProfileAlert(PrefilledForm(e)).None?
    ensures ExpertProfileRoute.UpdatedProfile(e, ProfileRequest(PrefilledForm(e)), now) == e.(updatedAt := now)
  {
    var tags := e.specialization;
    assert tags[0] in tags;
    IntToStringParses(e.experience);
    JoinStartsWithFirst(tags);
    var joined := JoinTags(tags);
    assert joined[0] == joined[..|tags[0]|][0] == tags[0][0];
    assert !IsSpace(joined[0]);
    TrimFacts(joined);
    JoinThenSplitTags(tags);
  }

  /** `tags.join(", ")` starts with the first tag. */
  lemma JoinStartsWithFirst(tags: seq<string>)
    requires tags != []
    ensures |JoinTags(tags)| >= |tags[0]| && JoinTags(tags)[..|tags[0]|] == tags[0]
  {
    if |tags| > 1 {
      assert JoinTags(tags) == tags[0] + (", " + Join(tags[1..], ", "));
    }
  }

  // ----- the slot form -----

  /** `parseInt(x) <= 0`: false when `x` is not a number, since a
      comparison with NaN is false. */
  predicate NonPositive(x: string)
  {
    ParseInt(x).Some? && ParseInt(x).value <= 0
  }

  /** The title of the alert `handleScheduleSession` raises before sending:
      a duration, then a capacity, that parses to zero or less. */
  function SessionAlert(form: SessionForm): (r: Option<string>)
    ensures NonPositive(form.duration) ==> r == Some(InvalidDurationTitle)
    ensures !NonPositive(form.duration) && NonPositive(form.maxStudents) ==> r == Some(InvalidCapacityTitle)
    ensures r.None? <==> !NonPositive(form.duration) && !NonPositive(form.maxStudents)
  {
    if NonPositive(form.duration) then Some(InvalidDurationTitle)
    else if NonPositive(form.maxStudents) then Some(InvalidCapacityTitle)
    else None
  }

  /** The route a slot request goes to. */
  datatype Endpoint = ExpertSessions | AdminSessions

  datatype ScheduleRequest = ScheduleRequest(endpoint: Endpoint, body: ExpertSessionsRoute.SlotBody)

  /** The request `handleScheduleSession` sends: in the administrator's
      view the admin route, with the viewed expert's id added to the body;
      otherwise the expert's route with the form as it is. */
  function ScheduleRequestFor(form: SessionForm, isAdminView: bool, expertId: Option<string>): (r: ScheduleRequest)
    ensures isAdminView ==> r.endpoint == AdminSessions && r.body.expertId == expertId
    ensures !isAdminView ==> r.endpoint == ExpertSessions && r.body.expertId.None?
    ensures r.body.title == Some(form.title) && r.body.description == Some(form.description)
    ensures r.body.sessionType == Some(form.sessionType) && r.body.scheduledAt == form.scheduledAt
    ensures r.body.duration == ParseInt(form.duration) && r.body.maxStudents == ParseInt(form.maxStudents)
  {
    ScheduleRequest(if isAdminView then AdminSessions else ExpertSessions,
                    ExpertSessionsRoute.SlotBody(if isAdminView then expertId else None, Some(form.title),
                                                 Some(form.description), Some(form.sessionType), form.scheduledAt,
                                                 ParseInt(form.duration), ParseInt(form.maxStudents)))
  }

  /** The form lets through every slot the expert's route accepts. */
  lemma RouteAcceptedPassesForm(form: SessionForm, isAdminView: bool, expertId: Option<string>, now: int)
    requires ExpertSessionsRoute.AcceptableSlot(ScheduleRequestFor(form, isAdminView, expertId).body, now)
    ensures SessionAlert(form).None?
  {
  }

  /** A duration that is not a number passes the form; the expert's route
      then refuses it, while the admin route stores the default 60. */
  lemma NonNumericDurationPassesForm(form: SessionForm, expertId: Option<string>, now: int)
    requires ParseInt(form.duration).None? && !NonPositive(form.maxStudents)
    requires form.title != "" && form.scheduledAt.At? && form.scheduledAt.time >= now
    ensures SessionAlert(form).None?
    ensures ExpertSessionsRoute.SlotBodyError(ScheduleRequestFor(form, false, expertId).body, now)
         == Some(ExpertSessionsRoute.DurationMsg)
    ensures AdminSessionsRoute.AdminDuration(ScheduleRequestFor(form, true, expertId).body)
         == AdminSessionsRoute.DefaultDuration
  {
  }

  /** The form as it opens, once given a title and a start time not in the
      past, passes its own checks and is accepted by the route it goes to:
      the expert's route in the expert's own view, the admin route (with
      the viewed expert's id) in the administrator's view. Either way it
      asks for an hour-long slot for 50 students. */
  lemma DefaultFormSchedules(title: string, at: int, now: int, viewed: string)
    requires title != "" && at >= now
    ensures var form := DefaultSessionForm.(title := title, scheduledAt := At(at));
            var body := ScheduleRequestFor(form, false, None).body;
            SessionAlert(form).None? &&
            ExpertSessionsRoute.SlotBodyError(body, now).None? &&
            body.duration == Some(60) && body.maxStudents == Some(50)
    ensures viewed != "" ==>
            var form := DefaultSessionForm.(title := title, scheduledAt := At(at));
            var body := ScheduleRequestFor(form, true, Some(viewed)).body;
            AdminSessionsRoute.AdminSlotBodyError(body, now).None? &&
            AdminSessionsRoute.AdminDuration(body) == 60 && AdminSessionsRoute.AdminCapacity(body) == 50
  {
    var form := DefaultSessionForm.(title := title, scheduledAt := At(at));
    var body := ScheduleRequestFor(form, false, None).body;
    DefaultsParse();
    assert ParseInt(form.duration) == Some(60) && ParseInt(form.maxStudents) == Some(50);
    assert !NonPositive(form.duration) && !NonPositive(form.maxStudents);
    assert ExpertSessionsRoute.AcceptableSlot(body, now);
    if viewed != "" {
      var adminBody := ScheduleRequestFor(form, true, Some(viewed)).body;
      assert adminBody == body.(expertId := Some(viewed));
      AdminSessionsRoute.ExpertAcceptedIsAdminAccepted(adminBody, now);
    }
  }

  /** The default duration and capacity texts read as 60 and 50. */
  lemma DefaultsParse()
    ensures ParseInt(DefaultSessionForm.duration) == Some(60)
    ensures ParseInt(DefaultSessionForm.maxStudents) == Some(50)
  {
    TwoDigitsParse('6', '0');
    TwoDigitsParse('5', '0');
  }

  lemma TwoDigitsParse(hi: char, lo: char)
    requires '1' <= hi <= '9' && '0' <= lo <= '9'
    ensures ParseInt([hi, lo]) == Some((hi as int - '0' as int) * 10 + (lo as int - '0' as int))
  {
    var s := [hi, lo];
    assert AllDigits(s);
    DigitsUnchanged(s);
    DigitPrefixAll(s);
    assert s[..1] == [hi];
    assert DigitsValue(s) == DigitsValue([hi]) * 10 + (lo as int - '0' as int);
    assert [hi][..0] == [];
  }

  // ----- the derived figures -----

  /** `b.student.email` of a loaded booking; a booking without its student
      has no email to collect. */
  function StudentEmail(row: ExpertBookingsRoute.BookingRow): Option<string>
  {
    if row.student.Some? then Some(row.student.value.email) else None
  }

  /** `[...new Set(bookings.map(b => b.student.email))].length`: the number
      of different students among the bookings. */
  function TotalStudents(rows: seq<ExpertBookingsRoute.BookingRow>): (n: nat)
    ensures n == |Keys(rows, StudentEmail)|
    ensures n <= |rows|
  {
    var firsts := DedupBy(rows, StudentEmail);
    DistinctKeysCount(firsts, StudentEmail);
    SubseqLength(firsts, rows);
    |firsts|
  }

  /** A further booking by a student already listed leaves the count as it
      was; one by a new student adds one. */
  lemma TotalStudentsAppend(rows: seq<ExpertBookingsRoute.BookingRow>, row: ExpertBookingsRoute.BookingRow)
    ensures (exists r :: r in rows && StudentEmail(r) == StudentEmail(row)) ==>
            TotalStudents(rows + [row]) == TotalStudents(rows)
    ensures (forall r :: r in rows ==> StudentEmail(r) != StudentEmail(row)) ==>
            TotalStudents(rows + [row]) == TotalStudents(rows) + 1
  {
    KeysAppend(rows, row, StudentEmail);
    if forall r :: r in rows ==> StudentEmail(r) != StudentEmail(row) {
      assert StudentEmail(row) !in Keys(rows, StudentEmail);
    }
  }

  predicate IsUpcomingSlot(v: SlotView)
  {
    v.slot.status == "upcoming"
  }

  /** `liveSessions.filter(s => s.status === "upcoming")`. */
  function UpcomingSlots(slots: seq<SlotView>): (r: seq<SlotView>)
    ensures forall v :: v in r <==> v in slots && IsUpcomingSlot(v)
    ensures Subseq(r, slots)
  {
    FilterSubseq(slots, IsUpcomingSlot);
    Filter(slots, IsUpcomingSlot)
  }

  /** A slot just created by the expert's route is counted as upcoming. */
  lemma CreatedSlotIsUpcoming(slots: seq<SlotView>, v: SlotView, id: string, expertId: string,
                              body: ExpertSessionsRoute.SlotBody)
    requires Truthy(body.title) && body.scheduledAt.At? && body.duration.Some? && body.maxStudents.Some?
    requires v in slots && v.slot == ExpertSessionsRoute.NewSlot(id, expertId, body)
    ensures v in UpcomingSlots(slots)
  {
  }

  // ----- the component's state -----

  /** The dashboard's state: which view it is, the two forms, the loaded
      lists, the expert shown, and whether each dialog is open. */
  class ExpertDashboard {
    const isAdminView: bool
    const expertId: Option<string>
    var sessionForm: SessionForm
    var profileForm: ProfileForm
    var bookings: seq<ExpertBookingsRoute.BookingRow>
    var liveSessions: seq<SlotView>
    var expertInfo: Option<Expert>
    var scheduleOpen: bool
    var profileOpen: bool

    constructor(adminView: bool, viewedExpert: Option<string>)
      ensures isAdminView == adminView && expertId == viewedExpert
      ensures sessionForm == DefaultSessionForm && profileForm == EmptyProfileForm
      ensures bookings == [] && liveSessions == [] && expertInfo.None?
      ensures !scheduleOpen && !profileOpen
    {
      isAdminView := adminView;
      expertId := viewedExpert;
      sessionForm := DefaultSessionForm;
      profileForm := EmptyProfileForm;
      bookings := [];
      liveSessions := [];
      expertInfo := None;
      scheduleOpen := false;
      profileOpen := false;
    }

    /** The successful branch of `fetchExpertData`: the lists are replaced,
        the administrator's view keeps the expert shown, and a returned
        expert prefills the profile form. */
    method Load(rows: seq<ExpertBookingsRoute.BookingRow>, slots: seq<SlotView>, expert: Option<Expert>)
      modifies this
      ensures bookings == rows && liveSessions == slots
      ensures expertInfo == if isAdminView then expert else old(expertInfo)
      ensures profileForm == if expert.Some? then PrefilledForm(expert.value) else old(profileForm)
      ensures sessionForm == old(sessionForm) && scheduleOpen == old(scheduleOpen) && profileOpen == old(profileOpen)
    {
      bookings := rows;
      liveSessions := slots;
      if isAdminView {
        expertInfo := expert;
      }
      if expert.Some? {
        profileForm := PrefilledForm(expert.value);
      }
    }

    method EditSessionForm(form: SessionForm)
      modifies this
      ensures sessionForm == form
      ensures profileForm == old(profileForm) && bookings == old(bookings) && liveSessions == old(liveSessions)
      ensures expertInfo == old(expertInfo) && scheduleOpen == old(scheduleOpen) && profileOpen == old(profileOpen)
    {
      sessionForm := form;
    }

    method EditProfileForm(form: ProfileForm)
      modifies this
      ensures profileForm == form
      ensures sessionForm == old(sessionForm) && bookings == old(bookings) && liveSessions == old(liveSessions)
      ensures expertInfo == old(expertInfo) && scheduleOpen == old(scheduleOpen) && profileOpen == old(profileOpen)
    {
      profileForm := form;
    }

    /** `handleScheduleSession`. A form the checks refuse sends nothing
        and changes nothing. Otherwise the request is sent; `created` says
        whether the route made the slot. On success the dialog closes, the
        form is reset to its defaults and the slot list is reloaded:
        `refreshed` is the `liveSessions` of the expert's bookings reply,
        while the administrator's view reloads from the admin listing,
        whose reply carries no `liveSessions`, so its list becomes empty. */
    method ScheduleSession(created: bool, refreshed: seq<SlotView>)
      returns (alert: Option<string>, sent: Option<ScheduleRequest>)
      modifies this
      ensures SessionAlert(old(sessionForm)).Some? ==>
        alert == SessionAlert(old(sessionForm)) && sent.None? && unchanged(this)
      ensures SessionAlert(old(sessionForm)).None? ==>
        sent == Some(ScheduleRequestFor(old(sessionForm), isAdminView, expertId))
      ensures SessionAlert(old(sessionForm)).None? && !created ==>
        alert == Some(SchedulingFailedTitle) && unchanged(this)
      ensures SessionAlert(old(sessionForm)).None? && created ==>
        alert.None? && !scheduleOpen && sessionForm == DefaultSessionForm &&
        liveSessions == (if isAdminView then [] else refreshed)
      ensures profileForm == old(profileForm) && bookings == old(bookings) && expertInfo == old(expertInfo)
      ensures profileOpen == old(profileOpen)
    {
      alert := SessionAlert(sessionForm);
      if alert.Some? {
        return alert, None;
      }
      sent := Some(ScheduleRequestFor(sessionForm, isAdminView, expertId));
      if !created {
        alert := Some(SchedulingFailedTitle);
        return;
      }
      scheduleOpen := false;
      sessionForm := DefaultSessionForm;
      liveSessions := if isAdminView then [] else refreshed;
    }

    /** `handleUpdateProfile`. A form the checks refuse sends nothing and
        changes nothing. Otherwise the form is sent; `saved` is the expert
        the route returned, absent when it answered with an error. On
        success the dialog closes and, in the expert's own view, the
        returned row becomes the expert shown. */
    method UpdateProfile(saved: Option<Expert>) returns (alert: Option<string>, sent: Option<ExpertProfileRoute.ProfileBody>)
      modifies this
      ensures ProfileAlert(old(profileForm)).Some? ==>
        alert == ProfileAlert(old(profileForm)) && sent.None? && unchanged(this)
      ensures ProfileAlert(old(profileForm)).None? ==> sent == Some(ProfileRequest(old(profileForm)))
      ensures ProfileAlert(old(profileForm)).None? && saved.None? ==>
        alert == Some(UpdateFailedTitle) && unchanged(this)
      ensures ProfileAlert(old(profileForm)).None? && saved.Some? ==>
        alert.None? && !profileOpen && expertInfo == (if isAdminView then old(expertInfo) else saved)
      ensures sessionForm == old(sessionForm) && profileForm == old(profileForm)
      ensures bookings == old(bookings) && liveSessions == old(liveSessions) && scheduleOpen == old(scheduleOpen)
    {
      alert := ProfileAlert(profileForm);
      if alert.Some? {
        return alert, None;
      }
      sent := Some(ProfileRequest(profileForm));
      if saved.None? {
        alert := Some(UpdateFailedTitle);
        return;
      }
      profileOpen := false;
      if !isAdminView {
        expertInfo := saved;
      }
    }
  }
}
