# NIT Career counselling: the booking core, modelled in Dafny

NIT Career is a Next.js application in which students book places in group
counselling sessions ("slots") that experts run. Administrators manage the
experts and see platform totals, and booked sessions take place in a live
video room. This project models the core of that system:

- **The HTTP route handlers.**
  - `POST`/`GET /api/bookings`: the lazy user sync, the group-slot and legacy booking paths, the confirmation e-mail gate and a student's own listing.
  - `GET /api/sessions`.
  - `POST`/`GET /api/expert/sessions` and `POST`/`GET /api/admin/sessions`.
  - `GET /api/expert/bookings`.
  - `POST`/`PATCH`/`DELETE`/`GET /api/admin/experts`.
  - `GET`/`PATCH /api/expert/profile`.
  - `GET /api/experts` and `GET /api/admin/stats`.
- **The client components' logic.**
  - The student dashboard's lists.
  - The booking form's selection and request.
  - The admin dashboard's form checks, list edits and search.
  - The expert dashboard's forms, state and derived figures.
  - The video room's ids, participant list and class helper.

## Layout

| file | module | what it holds |
|---|---|---|
| `common.dfy` | `Common` | `Option`, `Response` (an `Ok` value or an error kind with its message), JavaScript `||` on strings and numbers, the parsed forms of dates and numbers |
| `seqs.dfy` | `Seqs` | the query toolkit: filter, stable sort by a key (`orderBy`), `take`, counting, de-duplication by a key, and sub-sequences |
| `text.dfy` | `Text` | the JavaScript string operations the core relies on: `trim`, `includes`, `toLowerCase`, `split`/`join`, the tag cleaning `split(',').map(trim).filter(Boolean)`, `replace(/[^a-zA-Z0-9]/g, '')`, `parseInt` and `toString` |
| `schema.dfy` | `Schema` | the four tables (users, experts, live sessions, bookings), lookups by key, booking counts per slot, and the store's consistency invariant |
| `store.dfy` | `Store` | `class Db`, the mutable store the handlers change |
| `bookings.dfy` … `admin_stats.dfy` | one module per route file | each handler: a pure function for reads and for the decision a write makes, and a method with `modifies db` that performs the write |
| `student_dashboard.dfy`, `booking_form.dfy`, `admin_dashboard.dfy`, `expert_dashboard.dfy`, `video_session.dfy` | one module per component | the component's derived values as functions, and its state as a class where the component updates state in place |

Each route's validation is a function that returns the first failing check's message, in the handler's order. The method that performs the write is specified against that function. Lemmas then connect routes and components, for example:

- a form only sends what the route accepts;
- a listed slot can be booked;
- archiving then restoring brings a row back;
- tags shown and sent back unchanged are stored unchanged.

The store invariant `Schema.Consistent` is kept by every write. It requires:

- unique keys;
- every booking's slot reference resolves;
- no slot holds more bookings than its capacity;
- one booking per student and slot.

## Model

| member | source | states |
|---|---|---|
| Common.StatusCode | src/app/api/expert/bookings/route.ts:11-22 | every error kind maps to an HTTP status between 400 and 500; the code is 401 exactly for a missing identity and 500 exactly for a store failure |
| Common.Or | src/app/api/bookings/route.ts:75 | `x || fallback` on strings: a present, non-empty string is kept; an absent or empty one is replaced by the fallback |
| Common.OrNumber | src/app/api/bookings/route.ts:94 | `n || fallback` on a parsed number: any value other than 0 is kept; `NaN` and 0 give the fallback |
| Text.Trim | src/app/api/admin/experts/route.ts:16-21 | the result has no leading or trailing white space |
| Text.TrimFacts | src/app/api/admin/experts/route.ts:16-21 | `trim()` removes only white space from both ends: the result is an infix of the input preceded only by white space, and it is empty exactly when the input is all white space |
| Text.ContainsIffInfix | src/app/api/admin/experts/route.ts:22 | `includes` holds exactly when the substring occurs at some position |
| Text.ToLower | src/components/admin-dashboard.tsx:429 | `toLowerCase()` keeps the length and lowers each ASCII capital letter, leaving every other character as it is |
| Text.SplitJoin | src/components/video-session.tsx:452-454 | splitting on a separator that no part contains gives back the joined parts |
| Text.SplitTags | src/app/api/expert/profile/route.ts:48 | every tag produced by `split(',').map(trim).filter(Boolean)` is non-empty, trimmed and comma-free |
| Text.JoinThenSplitTags | src/components/expert-dashboard.tsx:112 | tags shown as `join(", ")` and cleaned back with `split(',').map(trim).filter(Boolean)` are the original tags, when each is non-empty, trimmed and comma-free |
| Text.KeepAlnum | src/components/video-session.tsx:82 | `replace(/[^a-zA-Z0-9]/g, '')` keeps exactly the ASCII letters and digits of the input, never lengthening it |
| Text.ParseInt | src/app/api/expert/sessions/route.ts:34-35 | `parseInt` is `NaN` exactly when no digit follows the leading white space and one optional sign |
| Text.IntToStringParses | src/components/expert-dashboard.tsx:113 | `parseInt(n.toString())` gives back `n` for every integer |
| Schema.UserByClerkId | src/app/api/bookings/route.ts:20-22 | `findUnique` by identity: a row found has that identity; none is found exactly when no row has it |
| Schema.UserById | src/app/api/expert/bookings/route.ts:29-35 | the student a booking's `include` attaches: found exactly when a user has that id |
| Schema.ExpertByClerkId | src/app/api/expert/sessions/route.ts:12-16 | `findUnique` of the caller's expert row: a row found has that identity; none is found exactly when no row has it |
| Schema.ExpertById | src/app/api/admin/experts/route.ts:80-86 | lookup by primary key: found exactly when some row has that id |
| Schema.SlotById | src/app/api/bookings/route.ts:49-54 | lookup of the slot a booking names: found exactly when some slot has that id |
| Schema.SlotCount | src/app/api/sessions/route.ts:30-32 | `_count.bookings` of a slot: at most the number of bookings, and 0 exactly when no booking references the slot |
| Schema.SlotCountAppend | src/app/api/bookings/route.ts:101-104 | inserting a booking raises the count of its own slot by one and leaves every other slot's count unchanged |
| Schema.SlotCountIgnoresStatus | src/app/api/bookings/route.ts:56 | the count covers bookings of every status: changing statuses leaves every slot's count as it was |
| Schema.WithCounts | src/app/api/admin/sessions/route.ts:23-25 | each slot, in order, paired with its live booking count |
| Schema.InWithCounts | src/app/api/sessions/route.ts:30-32 | a slot view is listed exactly when its slot exists and its count is that slot's live count |
| Schema.AddSlotKeepsConsistent | src/app/api/expert/sessions/route.ts:44-55 | inserting a slot with a fresh id and a non-negative capacity keeps the store consistent |
| BookingsRoute.ProviderEmail | src/app/api/bookings/route.ts:26 | the provider's first address when there is one, otherwise the placeholder `<clerkId>@clerk.user` |
| BookingsRoute.WithEmail | src/app/api/bookings/route.ts:37-42 | `user.update({ data: { email } })`: only the row with that id changes, and only its email |
| BookingsRoute.SyncedUsers | src/app/api/bookings/route.ts:19-43 | the sync appends a row for a missing caller, with a fresh id and the provider's address or the placeholder; it replaces an existing caller's placeholder email with the provider's address; it changes no other row and no other field |
| BookingsRoute.SyncedUserExists | src/app/api/bookings/route.ts:19-43 | after the sync the caller always has a user row |
| BookingsRoute.SyncKeepsUsersUnique | src/app/api/bookings/route.ts:28-36 | the sync keeps user ids and identities unique |
| BookingsRoute.SyncedUser | src/app/api/bookings/route.ts:19-43 | the row the sync leaves for the caller has the caller's identity and is in the synced table |
| BookingsRoute.SyncUser | src/app/api/bookings/route.ts:19-43 | the store method: the user table becomes the synced table, the other tables are untouched, and the store stays consistent |
| BookingsRoute.UniqueUserByClerkId | src/app/api/bookings/route.ts:20-22 | with unique identities, the lookup finds the one row that has it |
| BookingsRoute.PlanBooking | src/app/api/bookings/route.ts:47-98 | group path: 404 for no slot, then 400 for a slot no longer upcoming, full, or already booked by the student; success exactly when all pass, with every field from the slot, status "confirmed" and notes defaulting to "Group Session Registration". Legacy path: 400 unless expert, type and date are given, then 500 for an unparseable date; status "pending", duration `|| 60` |
| BookingsRoute.PlanKeepsConsistent | src/app/api/bookings/route.ts:101-119 | inserting a planned booking keeps the store consistent: its slot exists, the slot's capacity holds and the student holds no other booking of that slot |
| BookingsRoute.CancellingFreesNoSeat | src/app/api/bookings/route.ts:56-66 | changing a booking's status (such as cancelling it) never changes any later booking decision: the count and the duplicate check see every status |
| BookingsRoute.NoMailWithoutProviderEmail | src/app/api/bookings/route.ts:122 | when the provider reports no address for the caller, the confirmation goes to the address the sync leaves on the caller's row: a new caller or one with a placeholder address is not e-mailed, and one with a real stored address is e-mailed there |
| BookingsRoute.Reply | src/app/api/bookings/route.ts:173-184 | the reply echoes the booking's id, status, time, duration, type and notes, and carries the expert's first name, last name and e-mail exactly when the expert exists |
| BookingsRoute.CreateBooking | src/app/api/bookings/route.ts:7-192 | 401 with nothing written when signed out; otherwise the sync happens first whatever the outcome, the planned booking is appended exactly when the plan succeeds, a failed plan writes no booking, and the e-mail goes only to a real, non-placeholder address |
| BookingsRoute.StudentBookings | src/app/api/bookings/route.ts:195-233 | 401 when signed out; otherwise exactly the caller's bookings, each as often as stored, latest first |
| SessionsRoute.OfferedSlots | src/app/api/sessions/route.ts:12-37 | the query: upcoming slots starting at or after now, of the named expert when one is given, with their counts, one entry per offered slot row, soonest first |
| SessionsRoute.AvailableSessions | src/app/api/sessions/route.ts:40-42 | the reply: exactly the offered slots that still have a seat, one entry per slot row, soonest first, in query order |
| SessionsRoute.ListedSlotsHaveSeats | src/app/api/sessions/route.ts:40 | every listed slot exists and carries its live count, which is below its capacity |
| SessionsRoute.ListedSlotIsBookable | src/app/api/sessions/route.ts:40 | a listed slot is accepted by the group path of `POST /api/bookings` for any student not yet registered for it |
| ExpertSessionsRoute.SlotBodyError | src/app/api/expert/sessions/route.ts:21-42 | the checks in order: title and date, date format, not in the past (a start equal to now passes), duration `parseInt` positive, capacity `parseInt` positive; no error exactly when all pass |
| ExpertSessionsRoute.BoundaryAccepted | src/app/api/expert/sessions/route.ts:30-42 | the smallest accepted slot starts now, lasts 1 minute and seats 1 |
| ExpertSessionsRoute.NewSlot | src/app/api/expert/sessions/route.ts:44-55 | the row created: the caller's expert id, status "upcoming", session type defaulting to "group_counselling", the body's values otherwise |
| ExpertSessionsRoute.CreateExpertSlot | src/app/api/expert/sessions/route.ts:7-62 | 401, then 404 without an expert row, then 400 with the first failing check; each rejection writes nothing; on success the new slot is appended and the store stays consistent |
| ExpertSessionsRoute.SlotsOf | src/app/api/expert/sessions/route.ts:75-95 | the expert's slots with their counts, latest first: as a multiset, exactly the counted views whose slot is the expert's, one entry per slot |
| ExpertSessionsRoute.SlotsOfMembers | src/app/api/expert/sessions/route.ts:75-76 | a view is listed exactly when its slot is the expert's and its count is live |
| ExpertSessionsRoute.SlotsOfLatestFirst | src/app/api/expert/sessions/route.ts:94 | the list is ordered by start time, latest first |
| ExpertSessionsRoute.ExpertSlots | src/app/api/expert/sessions/route.ts:64-101 | 401 when signed out, 404 exactly when the caller has no expert row, otherwise that expert's slots |
| AdminSessionsRoute.AllSlots | src/app/api/admin/sessions/route.ts:8-32 | every slot, each once with its live count, latest first |
| AdminSessionsRoute.AdminSlotBodyError | src/app/api/admin/sessions/route.ts:47-68 | expert id, title and date required, then date format, then not in the past; duration and capacity default to 60 and 50 when missing or 0, so only a negative value is refused; each error is returned exactly when the earlier checks pass and its own fails, and no error exactly when all pass |
| AdminSessionsRoute.AdminDefaultsWhereExpertRefuses | src/app/api/admin/sessions/route.ts:60-67 | a missing or zero duration and capacity are refused by the expert route but accepted by the admin route, which stores 60 and 50 |
| AdminSessionsRoute.ExpertAcceptedIsAdminAccepted | src/app/api/admin/sessions/route.ts:47-68 | every body the expert route accepts, with an expert id added, is accepted by the admin route with the same duration and capacity |
| AdminSessionsRoute.NewAdminSlot | src/app/api/admin/sessions/route.ts:70-81 | the row created: the body's expert id, status "upcoming", defaulted type, duration and capacity |
| AdminSessionsRoute.CreateAdminSlot | src/app/api/admin/sessions/route.ts:39-91 | 401, then 400 with the first failing check, then 500 when the store refuses the row; otherwise the new slot is appended; only the slot table can change |
| ExpertBookingsRoute.ContactOf | src/app/api/expert/bookings/route.ts:28-36 | a booking's student contact is present exactly when the user exists, and carries that user's names and email |
| ExpertBookingsRoute.BookingsOf | src/app/api/expert/bookings/route.ts:24-40 | exactly the expert's bookings, each as often as stored, latest first |
| ExpertBookingsRoute.BookingsIn | src/app/api/expert/bookings/route.ts:52 | the bookings of the reply rows, in order |
| ExpertBookingsRoute.WithStudents | src/app/api/expert/bookings/route.ts:28-36 | each booking paired with its student's contact, in the same order |
| ExpertBookingsRoute.ExpertView | src/app/api/expert/bookings/route.ts:24-52 | the reply: the expert's own bookings with their students, and the expert's slots with their live counts, the same list as the expert slot route, latest first |
| ExpertBookingsRoute.ExpertBookings | src/app/api/expert/bookings/route.ts:7-61 | 401 when signed out, 403 exactly when the caller has no expert row, otherwise exactly `ExpertView` of that expert |
| AdminExpertsRoute.NewExpertError | src/app/api/admin/experts/route.ts:16-32 | first name, last name, an email containing "@", then a non-negative `parseInt` experience, in that order; no error exactly when all hold |
| AdminExpertsRoute.ClerkIdFor | src/app/api/admin/experts/route.ts:38-43 | the caller's own identity when the email is one of the caller's addresses, otherwise a fresh placeholder |
| AdminExpertsRoute.PlanNewExpert | src/app/api/admin/experts/route.ts:13-63 | 400 with the first failing check; 409 exactly when the email or identity is taken; otherwise an active, not archived row with the body's fields, tags defaulting to none, bio to "" |
| AdminExpertsRoute.AddExpertKeepsUnique | src/app/api/admin/experts/route.ts:41-52 | a row with a fresh id, email and identity keeps the expert keys unique |
| AdminExpertsRoute.CreateExpert | src/app/api/admin/experts/route.ts:7-70 | 401 when signed out; otherwise the planned outcome, with the row appended exactly on success and only the expert table changing |
| AdminExpertsRoute.WithFlags | src/app/api/admin/experts/route.ts:80-86 | only the flags given are written; every other field but the update stamp is kept |
| AdminExpertsRoute.UpdateFlags | src/app/api/admin/experts/route.ts:80-86 | only the row with that id changes, by `WithFlags` |
| AdminExpertsRoute.UpdateFlagsKeepsUnique | src/app/api/admin/experts/route.ts:80-86 | flag updates keep the keys unique and leave the row findable by its id with the new flags |
| AdminExpertsRoute.PatchExpert | src/app/api/admin/experts/route.ts:72-93 | 401 when signed out; a missing or unknown id gives 500 with nothing written; otherwise the flags given are written to that row |
| AdminExpertsRoute.RemoveById | src/app/api/admin/experts/route.ts:124-127 | the purge removes exactly the row with that id (one row fewer), keeping the others |
| AdminExpertsRoute.RemoveKeepsUnique | src/app/api/admin/experts/route.ts:124-127 | the purge keeps the keys unique |
| AdminExpertsRoute.RemoveAtKeepsUnique | src/app/api/admin/experts/route.ts:124-127 | removing any one row keeps the keys unique |
| AdminExpertsRoute.DeleteExpert | src/app/api/admin/experts/route.ts:113-140 | 401, then 400 without an id, then 500 for an unknown id, with nothing written; `permanent=true` purges the row, any other value archives it (archived, inactive) |
| AdminExpertsRoute.ArchiveThenRestore | src/app/api/admin/experts/route.ts:129-132 | archiving then restoring gives back every row, the restored one active and not archived with the later stamp |
| AdminExpertsRoute.ListExperts | src/app/api/admin/experts/route.ts:95-112 | 401 when signed out; otherwise exactly the archived rows for `deleted=true` and the others for any other value, each as often as stored, most recently updated first |
| ExpertProfileRoute.GetProfile | src/app/api/expert/profile/route.ts:8-23 | 401 when signed out, 404 exactly when the caller has no expert row, otherwise the caller's own row |
| ExpertProfileRoute.NewSpecialization | src/app/api/expert/profile/route.ts:48 | an array is stored as it is, a string as its cleaned tags, and an absent value leaves the tags unchanged |
| ExpertProfileRoute.UpdatedProfile | src/app/api/expert/profile/route.ts:44-51 | absent fields are not written; experience is written only when it parses to a value other than 0 (`parseInt(x) || undefined`); no other field changes but the update stamp |
| ExpertProfileRoute.UpdateByClerkId | src/app/api/expert/profile/route.ts:44-45 | only the caller's row changes |
| ExpertProfileRoute.UpdateKeepsUnique | src/app/api/expert/profile/route.ts:44-51 | profile edits keep the expert keys unique |
| ExpertProfileRoute.UpdatedRowFound | src/app/api/expert/profile/route.ts:44-53 | after the edit the caller's row is found under the same identity, updated |
| ExpertProfileRoute.PatchProfile | src/app/api/expert/profile/route.ts:26-58 | 401; then 400 for a given experience that is `NaN` or negative, with nothing written; a caller without a row gets 500; otherwise the caller's row is updated and returned |
| ExpertProfileRoute.JoinedTagsComeBack | src/app/api/expert/profile/route.ts:48 | tags sent back as the ", "-joined text are stored unchanged |
| ExpertProfileRoute.ZeroExperienceIgnored | src/app/api/expert/profile/route.ts:49 | 0 years passes the check but is never written over the stored value |
| ExpertsRoute.Completed | src/app/api/experts/route.ts:20-28 | an expert's completed-booking count: at most the number of bookings, and 0 exactly when none of the expert's bookings is completed |
| ExpertsRoute.Publish | src/app/api/experts/route.ts:36-45 | the directory entry copies the public fields and carries the completed count |
| ExpertsRoute.ActiveByRating | src/app/api/experts/route.ts:8-33 | exactly the active experts, one entry per active row, best rated first |
| ExpertsRoute.PublicExperts | src/app/api/experts/route.ts:6-47 | one entry per active expert, in the query's order, best rated first |
| ExpertsRoute.DirectoryMembers | src/app/api/experts/route.ts:9-11 | an expert has an entry exactly when it is active |
| ExpertsRoute.ArchivedButActiveIsListed | src/app/api/experts/route.ts:9-11 | the directory does not look at the archive flag: an archived row still marked active is listed |
| AdminStatsRoute.NewestFirst | src/app/api/admin/stats/route.ts:23-25 | every booking, each as often as stored, newest first by creation time |
| AdminStatsRoute.RecentBookings | src/app/api/admin/stats/route.ts:23-30 | `take: 5`: the first five of the newest-first order, or all bookings when there are fewer |
| AdminStatsRoute.RecentAreNewest | src/app/api/admin/stats/route.ts:23-30 | the window and the bookings left out make up the table, and no booking left out is newer than one kept |
| AdminStatsRoute.CurrentExperts | src/app/api/admin/stats/route.ts:31-34 | exactly the rows not archived, each as often as stored, newest first |
| AdminStatsRoute.AdminStats | src/app/api/admin/stats/route.ts:7-53 | 401 when signed out; the expert total counts the rows not archived and equals the length of the returned list; the other totals are table sizes |
| StudentDashboard.Upcoming | src/components/student-dashboard.tsx:109-111 | exactly the pending or confirmed bookings later than now, in order |
| StudentDashboard.Past | src/components/student-dashboard.tsx:112-116 | exactly the completed or cancelled bookings and those not later than now, in order |
| StudentDashboard.Partition | src/components/student-dashboard.tsx:109-116 | a booking with one of the four known statuses is in exactly one list; one with another status and a future time is in neither |
| StudentDashboard.Disjoint | src/components/student-dashboard.tsx:109-116 | no booking is in both lists |
| StudentDashboard.StartedCountsAsPast | src/components/student-dashboard.tsx:112-116 | a confirmed booking whose start has been reached is listed as past |
| StudentDashboard.CompletedCount | src/components/student-dashboard.tsx:153 | the number of completed bookings |
| StudentDashboard.CompletedArePast | src/components/student-dashboard.tsx:113 | every completed booking is in the past list |
| StudentDashboard.CancelRequest | src/components/student-dashboard.tsx:83-87 | a `PATCH` of `/api/bookings/<id>` with status "cancelled", the id being the path's whole suffix |
| StudentDashboard.CancelTargetsOneBooking | src/components/student-dashboard.tsx:83 | different bookings get different request paths |
| StudentDashboard.CancelledIsPast | src/components/student-dashboard.tsx:112-116 | a cancelled booking is listed as past and not as upcoming |
| BookingFormComponent.ShownCount | src/components/booking-form.tsx:305 | the count shown is the slot's count, or 0 when missing |
| BookingFormComponent.FullMatchesShownCount | src/components/booking-form.tsx:299 | with a count present, a slot is marked full exactly when the shown count reaches capacity; without one, never |
| BookingFormComponent.ListedSlotNotFull | src/components/booking-form.tsx:299 | a slot from the available listing is never marked full |
| BookingFormComponent.FormRequest | src/components/booking-form.tsx:128-135 | the body names the chosen expert and slot, type "group_counselling", notes defaulting to "Group Session Registration"; time and duration come from the first listed slot with that id (duration `|| 60`), or are missing when none is listed |
| BookingFormComponent.FormRequestBooks | src/components/booking-form.tsx:128-142 | the request for a slot picked from the listing is accepted by `POST /api/bookings` for a student not yet registered, confirmed, with the typed notes or the default |
| BookingFormComponent.BookingForm.constructor | src/components/booking-form.tsx:32-35 | nothing is selected and no slot is loaded |
| BookingFormComponent.BookingForm.SelectExpert | src/components/booking-form.tsx:77-100 | clearing the expert empties the slots and the chosen slot; picking one loads its slots when the fetch succeeds, keeping the chosen slot |
| BookingFormComponent.BookingForm.SelectSlot | src/components/booking-form.tsx:279 | only the chosen slot changes |
| BookingFormComponent.BookingForm.EditNotes | src/components/booking-form.tsx:344 | only the notes change |
| BookingFormComponent.BookingForm.Submit | src/components/booking-form.tsx:103-135 | a request is sent exactly when the student is signed in and both an expert and a slot are chosen, and it is the form's request |
| BookingFormComponent.ClearedFormSendsNothing | src/components/booking-form.tsx:78-82 | after the expert is cleared nothing can be sent |
| AdminDashboardComponent.FormAlert | src/components/admin-dashboard.tsx:176-216 | "Incomplete Form" for a blank name, then "Invalid Email" without "@", then "Invalid Experience" for `NaN` or negative; no alert exactly when all pass |
| AdminDashboardComponent.FormBody | src/components/admin-dashboard.tsx:222-229 | the form as typed, the specialization as cleaned tags, the experience as the route parses it |
| AdminDashboardComponent.FormAgreesWithRoute | src/components/admin-dashboard.tsx:176-229 | the form posts exactly the bodies `POST /api/admin/experts` accepts, and its name alert is exactly the route's name error |
| AdminDashboardComponent.BlankTyped | src/components/admin-dashboard.tsx:180 | a typed field is blank for the route exactly when it trims to "" |
| AdminDashboardComponent.TypedExperienceArrives | src/components/admin-dashboard.tsx:206 | a whole number typed as experience reaches the route as that number, and a negative one is caught by the form |
| AdminDashboardComponent.SetActive | src/components/admin-dashboard.tsx:125-127 | the entries with that id get the new flag; all others are unchanged |
| AdminDashboardComponent.SetActiveMatchesRoute | src/components/admin-dashboard.tsx:125-127 | the local edit equals what `PATCH /api/admin/experts` stores, apart from the update stamp |
| AdminDashboardComponent.AdminDashboard.constructor | src/components/admin-dashboard.tsx:45-48 | the two lists as loaded |
| AdminDashboardComponent.AdminDashboard.ToggleExpertStatus | src/components/admin-dashboard.tsx:113-135 | the flipped flag is posted; on success the archived list is edited when it holds the id, otherwise the current list; on failure nothing changes |
| AdminDashboardComponent.RestoreRequest | src/components/admin-dashboard.tsx:144 | restore posts active and not archived |
| AdminDashboardComponent.DeleteRequest | src/components/admin-dashboard.tsx:160 | the URL names the id and carries `permanent=true` exactly for a purge |
| AdminDashboardComponent.RestoreUndoesArchive | src/components/admin-dashboard.tsx:138-144 | restoring an archived row through the route gives it back active, not archived, every other field as before but the stamp |
| AdminDashboardComponent.SearchExperts | src/components/admin-dashboard.tsx:429 | exactly the experts whose lowered full name contains the lowered query, in order |
| AdminDashboardComponent.EmptySearchKeepsAll | src/components/admin-dashboard.tsx:429 | the empty search shows every expert, in order |
| AdminDashboardComponent.SearchIgnoresCase | src/components/admin-dashboard.tsx:429 | lowering the query does not change what matches |
| ExpertDashboardComponent.ProfileAlertOrder | src/components/expert-dashboard.tsx:130-157 | "Invalid Experience" for `NaN` or negative, then "Incomplete Profile" for a blank specialization; no alert exactly when both pass |
| ExpertDashboardComponent.ProfileRequest | src/components/expert-dashboard.tsx:161-165 | the form posted as typed: bio, specialization text, experience through `parseInt` |
| ExpertDashboardComponent.SentProfilePassesRoute | src/components/expert-dashboard.tsx:130-165 | every profile the form sends passes the route's experience check |
| ExpertDashboardComponent.PrefilledProfileSavesUnchanged | src/components/expert-dashboard.tsx:106-113 | saving the prefilled form of a row with clean tags and non-negative experience raises no alert and stores the row unchanged but for the update stamp |
| ExpertDashboardComponent.JoinStartsWithFirst | src/components/expert-dashboard.tsx:112 | the joined tags start with the first tag |
| ExpertDashboardComponent.SessionAlert | src/components/expert-dashboard.tsx:190-216 | "Invalid Duration" for a duration that parses to 0 or less, then "Invalid Capacity" likewise; a value that does not parse passes; no alert exactly when neither fires |
| ExpertDashboardComponent.ScheduleRequestFor | src/components/expert-dashboard.tsx:219-221 | the admin view posts to the admin route with the viewed expert's id; an expert posts to the expert route without one; the other fields are the form's |
| ExpertDashboardComponent.RouteAcceptedPassesForm | src/components/expert-dashboard.tsx:190-216 | every form whose body the expert route accepts raises no alert |
| ExpertDashboardComponent.NonNumericDurationPassesForm | src/components/expert-dashboard.tsx:190-216 | a duration that does not parse passes the form, is refused by the expert route, and defaults to 60 on the admin route |
| ExpertDashboardComponent.DefaultFormSchedules | src/components/expert-dashboard.tsx:82-88 | the default form (60 minutes, 50 seats) with a title and a future time raises no alert and is accepted by the expert route and, with a viewed expert id, by the admin route, which stores 60 minutes and 50 seats |
| ExpertDashboardComponent.DefaultsParse | src/components/expert-dashboard.tsx:82-88 | the default "60" and "50" parse to 60 and 50 |
| ExpertDashboardComponent.TotalStudents | src/components/expert-dashboard.tsx:298 | the number of different student emails among the bookings, never more than the bookings |
| ExpertDashboardComponent.TotalStudentsAppend | src/components/expert-dashboard.tsx:298 | another booking by a listed student leaves the total unchanged; one by a new student adds one |
| ExpertDashboardComponent.UpcomingSlots | src/components/expert-dashboard.tsx:299 | exactly the slots with status "upcoming", in order |
| ExpertDashboardComponent.CreatedSlotIsUpcoming | src/components/expert-dashboard.tsx:299 | a slot just created by the expert route counts as upcoming |
| ExpertDashboardComponent.ExpertDashboard.constructor | src/components/expert-dashboard.tsx:45-88 | empty lists, no expert shown, default forms, modals closed |
| ExpertDashboardComponent.ExpertDashboard.Load | src/components/expert-dashboard.tsx:91-128 | the loaded bookings and slots replace the lists; the admin view shows the loaded expert; a loaded expert prefills the profile form |
| ExpertDashboardComponent.ExpertDashboard.EditSessionForm | src/components/expert-dashboard.tsx:526-573 | only the session form changes |
| ExpertDashboardComponent.ExpertDashboard.EditProfileForm | src/components/expert-dashboard.tsx:486-504 | only the profile form changes |
| ExpertDashboardComponent.ExpertDashboard.ScheduleSession | src/components/expert-dashboard.tsx:185-262 | an alert sends nothing and changes nothing; otherwise the form's request is sent; a refusal shows "Scheduling Failed" and changes nothing; success resets the form to its defaults, closes the modal and reloads the slot list |
| ExpertDashboardComponent.ExpertDashboard.UpdateProfile | src/components/expert-dashboard.tsx:126-183 | an alert sends nothing; otherwise the form is sent; a refusal shows "Update Failed"; success closes the modal and, outside the admin view, shows the saved row |
| VideoSession.RoomKey | src/components/video-session.tsx:82 | the room key holds only ASCII letters and digits |
| VideoSession.CallId | src/components/video-session.tsx:82 | `nit-` followed by the room key |
| VideoSession.ChatId | src/components/video-session.tsx:87 | `chat-` followed by the room key |
| VideoSession.SameRoomIffSameKey | src/components/video-session.tsx:82-87 | two session ids share a call, and share a chat, exactly when their room keys agree |
| VideoSession.KeepAlnumAppend | src/components/video-session.tsx:82 | stripping distributes over concatenation |
| VideoSession.PunctuationSharesRoom | src/components/video-session.tsx:82-87 | ids that differ only by a punctuation character share a call and a chat |
| VideoSession.UniqueParticipants | src/components/video-session.tsx:372-376 | one entry per user, covering every user present, in order |
| VideoSession.UniqueKeepsFirsts | src/components/video-session.tsx:372-376 | an entry is kept exactly when no earlier entry has its user |
| VideoSession.ActiveSpeaker | src/components/video-session.tsx:378 | the first speaking participant, otherwise the first participant; none exactly when the list is empty |
| VideoSession.Remote | src/components/video-session.tsx:379 | exactly the listed participants whose session differs from the active speaker's, in order |
| VideoSession.RemoteIsEveryoneElse | src/components/video-session.tsx:378-379 | when sessions are distinct, the remote tiles are everyone listed but the active speaker |
| VideoSession.ParticipantCount | src/components/video-session.tsx:257 | the badge counts different users, the same number as the de-duplicated list |
| VideoSession.RejoinNotCounted | src/components/video-session.tsx:257 | a user joining a second time does not raise the count |
| VideoSession.KeptClasses | src/components/video-session.tsx:453 | `filter(Boolean)`: exactly the present, non-empty class arguments |
| VideoSession.Cn | src/components/video-session.tsx:452-454 | no kept argument gives the empty class string |
| VideoSession.CnSplits | src/components/video-session.tsx:452-454 | splitting the class string on spaces gives back the kept arguments when none holds a space |
| VideoSession.CnIgnoresFalsy | src/components/video-session.tsx:453 | a falsy argument leaves no trace, not even an extra space |
| VideoSession.CnKeepsTruthy | src/components/video-session.tsx:453 | a truthy argument is kept in its place, ahead of the rest, and joined to them by one space |

## Where the model follows the code

- **Capacity and duplicate checks count bookings of every status.** A cancelled booking still holds its seat and still blocks the same student from registering again (`BookingsRoute.CancellingFreesNoSeat`, `Schema.SlotCountIgnoresStatus`).
- **A start time equal to the current time is not "in the past".** Both slot routes accept it (`ExpertSessionsRoute.BoundaryAccepted`).
- **The two slot routes validate differently.** The expert route refuses a missing, non-numeric or zero duration or capacity. The admin route replaces those with 60 and 50 (`AdminSessionsRoute.AdminDefaultsWhereExpertRefuses`).
- **Zero years of experience is never written by a profile edit** (`parseInt(x) || undefined`), although the check lets it through (`ExpertProfileRoute.ZeroExperienceIgnored`).
- **The public directory checks only `isActive`.** An archived expert still marked active stays listed (`ExpertsRoute.ArchivedButActiveIsListed`). Archiving through `DELETE` clears `isActive`, but the status toggle can set it again on an archived row.
- **The admin view of the expert dashboard empties its slot list after scheduling.** After a slot is created there, the list is reloaded from `GET /api/admin/sessions`. That route replies `{ sessions }`, so `sessData.liveSessions || []` is `[]`. `ExpertDashboard.ScheduleSession` models this as written.
- **The booking form's second check for a missing slot can never fire,** because the first check already returns (`BookingForm.Submit`).
- **On the legacy booking path, an unparseable date is sent to the store as an invalid `Date`.** The store refuses it, and the handler's catch answers 500. An ensures of `BookingsRoute.PlanBooking` states that such a request gets `Internal`, the 500 reply.

## Left out

- **Identity and environment.**
  - The identity provider and the store are not called. The caller's identity and the provider's profile are parameters.
  - Fresh row ids, the random placeholder identity and the current time are parameters too.
  - The store's refusal of an admin slot is the `storeRejects` parameter of `AdminSessionsRoute.CreateAdminSlot`.
  - Whether a fetch in a component succeeded is a parameter of the method that handles it.
- **Concurrency.** Each handler runs alone against the store. The check-then-insert of a group booking could overbook a slot under concurrent requests; the model does not capture that race.
- **The Prisma schema is not part of this model.**
  - Uniqueness of keys is taken from the `findUnique` lookups the handlers use.
  - Foreign keys from bookings and slots to experts and users are not modelled. A legacy booking or an admin slot naming an unknown expert is accepted. A purged expert's bookings and slots stay in the tables.
  - `BookingsRoute.PlanBooking`: does not model the store refusing a legacy booking whose expert does not exist.
- **`include` and `select` projections are not modelled.** Replies carry the modelled rows, not the exact JSON shapes. The e-mail template and its delivery are left out; only the recipient decision is modelled.
- **Ratings are modelled as integers.** The store holds them as floating point numbers; only their order matters here.
- **Other routes and pages.**
  - `src/app/api/bookings/[id]/route.ts` is not part of this model. The student dashboard only builds its request.
  - `src/app/api/admin/experts/[id]/dashboard/route.ts` is not part of this model. The expert dashboard's admin view receives its reply as a parameter.
  - The video and Zoom token routes, the video and chat SDK connection lifecycle, pages, toasts, dialogs and styling are left out.
- **Text.ParseInt**: decimal digits only. The `0x` hexadecimal prefix that JavaScript's `parseInt` also reads is not modelled. The white space it skips is the one `Text.IsSpace` gives, ECMAScript's WhiteSpace and LineTerminator sets: tab, line feed, vertical tab, form feed, carriage return, space, U+00A0, U+1680, U+2000 to U+200A, U+2028, U+2029, U+202F, U+205F, U+3000 and U+FEFF.
- **The store's `@updatedAt` stamp is an assumption, not read from the code.** The handlers never write `updatedAt`. `AdminExpertsRoute.WithFlags`, `ExpertProfileRoute.UpdatedProfile` and `AdminExpertsRoute.ListExperts` take the stamp to be set to the current time on every update, flag changes and profile edits included. They order the admin list by it on that assumption.
- **Text.ToLower**: lowers ASCII letters only.
- **JavaScript `Date` parsing.** A date is already parsed into a missing, invalid or valid time.
- **ExpertDashboardComponent.TotalStudents**: a booking row without its student is counted under one "missing email" key. The component would throw on such a row.
- **The initial rating.** A new expert starts with the store's column default rating, which the model takes as 0.
- **AdminDashboardComponent.DeleteRequest**: the id is not URL-encoded. Ids are assumed not to contain `&` or `=`.
