/** The administrator's dashboard: the add-expert form's checks and the
    body it posts, the in-place status toggle of the expert lists, the
    restore and delete requests, and the name search. */
module AdminDashboardComponent {
  import opened Common
  import opened Seqs
  import opened Text
  import opened Schema
  import AdminExpertsRoute

  // ----- add an expert -----

  /** The add-expert form, every field as typed. */
  datatype NewExpertForm = NewExpertForm(
    firstName: string,
    lastName: string,
    email: string,
    specialization: string,
    bio: string,
    experience: string)

  const IncompleteTitle := "Incomplete Form"
  const InvalidEmailTitle := "Invalid Email"
  const InvalidExperienceTitle := "Invalid Experience"

  /** The title of the first alert `handleAddExpert` raises, in its order;
      `None` when the form is posted. */
  function FormAlert(form: NewExpertForm): (r: Option<string>)
    ensures (Trim(form.firstName) == "" || Trim(form.lastName) == "") ==> r == Some(IncompleteTitle)
    ensures (Trim(form.firstName) != "" && Trim(form.lastName) != "" && !Contains(form.email, "@")) ==>
            r == Some(InvalidEmailTitle)
    ensures (Trim(form.firstName) != "" && Trim(form.lastName) != "" && Contains(form.email, "@") &&
             (ParseInt(form.experience).None? || ParseInt(form.experience).value < 0)) ==> r == Some(InvalidExperienceTitle)
    ensures r.None? <==> Trim(form.firstName) != "" && Trim(form.lastName) != "" && Contains(form.email, "@") &&
                         ParseInt(form.experience).Some? && ParseInt(form.experience).value >= 0
  {
    if Trim(form.firstName) == "" || Trim(form.lastName) == "" then Some(IncompleteTitle)
    else if !Contains(form.email, "@") then Some(InvalidEmailTitle)
    else
      var exp := ParseInt(form.experience);
      if exp.None? || exp.value < 0 then Some(InvalidExperienceTitle)
      else None
  }

  /** The body posted: the form as typed, with the specialization split on
      commas, each part trimmed and the empty parts dropped. The route
      reads `experience` through `parseInt`. */
  function FormBody(form: NewExpertForm): (b: AdminExpertsRoute.NewExpertBody)
    ensures b.specialization == Some(SplitTags(form.specialization))
    ensures forall t :: t in b.specialization.value ==> t != "" && Trimmed(t) && ',' !in t
    ensures b.firstName == Some(form.firstName) && b.lastName == Some(form.lastName) && b.email == Some(form.email)
    ensures b.bio == Some(form.bio) && b.experience == ParseInt(form.experience)
  {
    AdminExpertsRoute.NewExpertBody(Some(form.firstName), Some(form.lastName), Some(form.email),
                                    Some(SplitTags(form.specialization)), Some(form.bio), ParseInt(form.experience))
  }

  /** The form's checks and the route's agree: the form posts exactly the
      bodies the route's validation lets through, and a name alert is the
      route's name error. */
  lemma FormAgreesWithRoute(form: NewExpertForm)
    ensures FormAlert(form).None? <==> AdminExpertsRoute.NewExpertError(FormBody(form)).None?
    ensures FormAlert(form) == Some(IncompleteTitle) <==>
            (AdminExpertsRoute.NewExpertError(FormBody(form)) == Some(AdminExpertsRoute.FirstNameMsg) ||
             AdminExpertsRoute.NewExpertError(FormBody(form)) == Some(AdminExpertsRoute.LastNameMsg))
  {
    var b := FormBody(form);
    BlankTyped(form.firstName);
    BlankTyped(form.lastName);
    assert AdminExpertsRoute.HasAt(b.email) <==> Contains(form.email, "@");
    if Trim(form.firstName) == "" || Trim(form.lastName) == "" {
      assert FormAlert(form) == Some(IncompleteTitle);
    } else if !Contains(form.email, "@") {
      assert FormAlert(form) == Some(InvalidEmailTitle);
      assert AdminExpertsRoute.NewExpertError(b) == Some(AdminExpertsRoute.EmailMsg);
    } else if ParseInt(form.experience).None? || ParseInt(form.experience).value < 0 {
      assert AdminExpertsRoute.NewExpertError(b) == Some(AdminExpertsRoute.ExperienceMsg);
    }
  }

  /** A typed field is blank for the route exactly when it trims to "". */
  lemma BlankTyped(x: string)
    ensures AdminExpertsRoute.Blank(Some(x)) <==> Trim(x) == ""
  {
    if x == "" {
      assert Trim(x) == "";
    }
  }

  /** A whole number typed as experience is posted as that number. */
  lemma TypedExperienceArrives(form: NewExpertForm, years: int)
    requires form.experience == IntToString(years)
    ensures FormBody(form).experience == Some(years)
    ensures years < 0 ==> FormAlert(form) != None
  {
    IntToStringParses(years);
  }

  // ----- the expert lists -----

  /** `list.map(e => e.id === id ? { ...e, isActive: value } : e)`. */
  function SetActive(list: seq<Expert>, id: string, value: bool): (r: seq<Expert>)
    ensures |r| == |list|
    ensures forall i :: 0 <= i < |r| && list[i].id == id ==> r[i] == list[i].(isActive := value)
    ensures forall i :: 0 <= i < |r| && list[i].id != id ==> r[i] == list[i]
  {
    seq(|list|, i requires 0 <= i < |list| => if list[i].id == id then list[i].(isActive := value) else list[i])
  }

  /** The local edit matches what the route wrote, except for the store's
      `updatedAt` stamp. */
  lemma SetActiveMatchesRoute(list: seq<Expert>, id: string, value: bool, now: int)
    ensures var local := SetActive(list, id, value);
            var stored := AdminExpertsRoute.UpdateFlags(list, id, Some(value), None, now);
            |local| == |stored| &&
            forall i :: 0 <= i < |local| ==> local[i] == stored[i].(updatedAt := list[i].updatedAt)
  {
  }

  /** The dashboard's lists of current and archived experts. */
  class AdminDashboard {
    var experts: seq<Expert>
    var archivedExperts: seq<Expert>

    constructor(current: seq<Expert>, archived: seq<Expert>)
      ensures experts == current && archivedExperts == archived
    {
      experts := current;
      archivedExperts := archived;
    }

    /** `toggleExpertStatus`: posts the flipped flag; when the route
        accepts it (`patchOk`), flips `isActive` on the matching entry of
        the archived list if the id is there, otherwise of the current
        list. */
    method ToggleExpertStatus(id: string, currentStatus: bool, patchOk: bool)
      returns (sent: AdminExpertsRoute.FlagPatch)
      modifies this
      ensures sent == AdminExpertsRoute.FlagPatch(Some(id), Some(!currentStatus), None)
      ensures !patchOk ==> experts == old(experts) && archivedExperts == old(archivedExperts)
      ensures patchOk && (exists e :: e in old(archivedExperts) && e.id == id) ==>
        archivedExperts == SetActive(old(archivedExperts), id, !currentStatus) && experts == old(experts)
      ensures patchOk && !(exists e :: e in old(archivedExperts) && e.id == id) ==>
        experts == SetActive(old(experts), id, !currentStatus) && archivedExperts == old(archivedExperts)
    {
      sent := AdminExpertsRoute.FlagPatch(Some(id), Some(!currentStatus), None);
      if !patchOk {
        return;
      }
      var isArchived := exists e :: e in archivedExperts && e.id == id;
      if isArchived {
        archivedExperts := SetActive(archivedExperts, id, !currentStatus);
      } else {
        experts := SetActive(experts, id, !currentStatus);
      }
    }
  }

  // ----- restore and delete -----

  /** `handleRestoreExpert`'s body. */
  function RestoreRequest(id: string): (p: AdminExpertsRoute.FlagPatch)
    ensures p.id == Some(id) && p.isDeleted == Some(false) && p.isActive == Some(true)
  {
    AdminExpertsRoute.FlagPatch(Some(id), Some(true), Some(false))
  }

  /** The query parameters `handleDeleteExpert`'s URL carries, as the route
      reads them: `permanent=true` appears only for a purge. */
  datatype DeleteQuery = DeleteQuery(id: Option<string>, permanent: Option<string>)

  function DeleteRequest(id: string, permanent: bool): (q: DeleteQuery)
    ensures q.id == Some(id)
    ensures q.permanent == Some("true") <==> permanent
  {
    DeleteQuery(Some(id), if permanent then Some("true") else None)
  }

  /** Restoring an archived row through the route brings back both flags
      and leaves every other field as it was but the `updatedAt` stamp. */
  lemma RestoreUndoesArchive(experts: seq<Expert>, id: string, t1: int, t2: int)
    ensures var p := RestoreRequest(id);
            var r := AdminExpertsRoute.UpdateFlags(AdminExpertsRoute.UpdateFlags(experts, id, Some(false), Some(true), t1),
                                                   id, p.isActive, p.isDeleted, t2);
            |r| == |experts| &&
            forall i :: 0 <= i < |r| ==>
              r[i] == if experts[i].id == id then experts[i].(isActive := true, isDeleted := false, updatedAt := t2)
                      else experts[i]
  {
    AdminExpertsRoute.ArchiveThenRestore(experts, id, t1, t2);
  }

  // ----- search -----

  /** `` `${firstName} ${lastName}`.toLowerCase().includes(query.toLowerCase()) ``. */
  predicate Matches(e: Expert, query: string)
  {
    Contains(ToLower(e.firstName + " " + e.lastName), ToLower(query))
  }

  function SearchFilter(query: string): Expert -> bool
  {
    (e: Expert) => Matches(e, query)
  }

  /** The rows the expert table shows for a search. */
  function SearchExperts(experts: seq<Expert>, query: string): (r: seq<Expert>)
    ensures forall e :: e in r <==> e in experts && Matches(e, query)
    ensures Subseq(r, experts)
  {
    FilterSubseq(experts, SearchFilter(query));
    Filter(experts, SearchFilter(query))
  }

  /** The empty search shows every expert, in order. */
  lemma {:induction false} EmptySearchKeepsAll(experts: seq<Expert>)
    ensures SearchExperts(experts, "") == experts
    decreases |experts|
  {
    if experts != [] {
      var e := experts[0];
      assert ToLower("") == "";
      assert Matches(e, "") by {
        var s := ToLower(e.firstName + " " + e.lastName);
        assert s[..0] == "";
      }
      EmptySearchKeepsAll(experts[1..]);
      assert SearchExperts(experts, "") == [e] + SearchExperts(experts[1..], "");
    }
  }

  /** The search ignores letter case in the query. */
  lemma SearchIgnoresCase(e: Expert, query: string)
    ensures Matches(e, ToLower(query)) <==> Matches(e, query)
  {
    assert ToLower(ToLower(query)) == ToLower(query);
  }
}
