/** `/api/expert/profile`: the signed-in expert reads (`GET`) and edits
    (`PATCH`) their own row. */
module ExpertProfileRoute {
  import opened Common
  import opened Text
  import opened Schema
  import opened Store

  const UnauthorizedMsg := "Unauthorized"
  const ExpertNotFoundMsg := "Expert not found"
  const InvalidExperienceMsg := "Invalid experience value"
  const UpdateFailedMsg := "Failed to update profile"

  /** `GET /api/expert/profile`. */
  function GetProfile(experts: seq<Expert>, identity: Option<string>): (r: Response<Expert>)
    ensures identity.None? <==> r == Fail(Unauthorized, UnauthorizedMsg)
    ensures identity.Some? ==> (ExpertByClerkId(experts, identity.value).None? <==> r == Fail(NotFound, ExpertNotFoundMsg))
    ensures r.Ok? ==> r.value in experts && r.value.clerkId == identity
  {
    if identity.None? then Fail(Unauthorized, UnauthorizedMsg)
    else
      match ExpertByClerkId(experts, identity.value)
      case None => Fail(NotFound, ExpertNotFoundMsg)
      case Some(e) => Ok(e)
  }

  /** The `specialization` of the body: absent, a JSON array, or a
      comma-separated string. */
  datatype SpecInput = NoSpec | SpecList(tags: seq<string>) | SpecText(text: string)

  datatype ProfileBody = ProfileBody(bio: Option<string>, specialization: SpecInput, experience: NumInput)

  /** The experience check of `PATCH`: only a present value is
      checked, and it must parse to a non-negative number. */
  predicate ExperienceOk(x: NumInput)
  {
    x.Given? ==> x.parsed.Some? && x.parsed.value >= 0
  }

  /** The specialization written: an array as it is, a string split on
      commas with the parts trimmed and the empty ones dropped, nothing
      when absent. */
  function NewSpecialization(current: seq<string>, spec: SpecInput): (r: seq<string>)
    ensures spec.NoSpec? ==> r == current
    ensures spec.SpecList? ==> r == spec.tags
    ensures spec.SpecText? ==> r == SplitTags(spec.text)
  {
    match spec
    case NoSpec => current
    case SpecList(tags) => tags
    case SpecText(text) => SplitTags(text)
  }

  /** The row after the update. Fields passed as `undefined` are not
      written: an absent bio or specialization, and an experience that is
      absent or parses to 0 (`parseInt(x) || undefined`). The store stamps
      `updatedAt`. */
  function UpdatedProfile(e: Expert, body: ProfileBody, now: int): (r: Expert)
    ensures r.bio == if body.bio.Some? then body.bio.value else e.bio
    ensures r.specialization == NewSpecialization(e.specialization, body.specialization)
    ensures body.experience.Given? && body.experience.parsed.Some? && body.experience.parsed.value != 0 ==>
            r.experience == body.experience.parsed.value
    ensures (body.experience.Undefined? || body.experience.parsed.None? || body.experience.parsed.value == 0) ==>
            r.experience == e.experience
    ensures r.updatedAt == now
    ensures r.(bio := e.bio, specialization := e.specialization, experience := e.experience, updatedAt := e.updatedAt) == e
  {
    var experience := if body.experience.Given? then body.experience.parsed else None;
    e.(bio := if body.bio.Some? then body.bio.value else e.bio,
       specialization := NewSpecialization(e.specialization, body.specialization),
       experience := if experience.Some? && experience.value != 0 then experience.value else e.experience,
       updatedAt := now)
  }

  /** `expert.update({ where: { clerkId } })` on the table. */
  function UpdateByClerkId(experts: seq<Expert>, clerkId: string, body: ProfileBody, now: int): (r: seq<Expert>)
    ensures |r| == |experts|
    ensures forall i :: 0 <= i < |r| && experts[i].clerkId != Some(clerkId) ==> r[i] == experts[i]
    ensures forall i :: 0 <= i < |r| && experts[i].clerkId == Some(clerkId) ==> r[i] == UpdatedProfile(experts[i], body, now)
  {
    seq(|experts|, i requires 0 <= i < |experts| =>
      if experts[i].clerkId == Some(clerkId) then UpdatedProfile(experts[i], body, now) else experts[i])
  }

  /** Editing a profile leaves every row's keys alone. */
  lemma UpdateKeepsKeys(experts: seq<Expert>, clerkId: string, body: ProfileBody, now: int, i: int)
    requires 0 <= i < |experts|
    ensures var r := UpdateByClerkId(experts, clerkId, body, now);
            r[i].id == experts[i].id && r[i].email == experts[i].email && r[i].clerkId == experts[i].clerkId
  {
  }

  /** Editing a profile leaves every key alone, so keys stay unique. */
  lemma UpdateKeepsUnique(experts: seq<Expert>, clerkId: string, body: ProfileBody, now: int)
    requires UniqueExperts(experts)
    ensures UniqueExperts(UpdateByClerkId(experts, clerkId, body, now))
  {
    var r := UpdateByClerkId(experts, clerkId, body, now);
    forall i, j | 0 <= i < j < |r|
      ensures r[i].id != r[j].id && r[i].email != r[j].email && (r[i].clerkId.Some? ==> r[i].clerkId != r[j].clerkId)
    {
      UpdateKeepsKeys(experts, clerkId, body, now, i);
      UpdateKeepsKeys(experts, clerkId, body, now, j);
    }
  }

  /** After the edit the caller's row is found under the same identity,
      updated. */
  lemma UpdatedRowFound(experts: seq<Expert>, clerkId: string, body: ProfileBody, now: int)
    requires UniqueExperts(experts)
    requires ExpertByClerkId(experts, clerkId).Some?
    ensures ExpertByClerkId(UpdateByClerkId(experts, clerkId, body, now), clerkId)
         == Some(UpdatedProfile(ExpertByClerkId(experts, clerkId).value, body, now))
  {
    var r := UpdateByClerkId(experts, clerkId, body, now);
    var e := ExpertByClerkId(experts, clerkId).value;
    var k :| 0 <= k < |experts| && experts[k] == e;
    assert r[k] == UpdatedProfile(e, body, now);
    UpdateKeepsKeys(experts, clerkId, body, now, k);
    var f := ExpertByClerkId(r, clerkId).value;
    var m :| 0 <= m < |r| && r[m] == f;
    UpdateKeepsKeys(experts, clerkId, body, now, m);
    assert experts[m].clerkId == Some(clerkId);
    assert m == k;
  }

  /** `PATCH /api/expert/profile`. A bad experience is refused before
      anything is written; a caller without an expert row makes the
      store's update fail, which the handler reports as a 500. */
  method PatchProfile(db: Db, identity: Option<string>, body: ProfileBody, now: int) returns (resp: Response<Expert>)
    requires db.Valid()
    modifies db
    ensures db.Valid()
    ensures db.users == old(db.users) && db.sessions == old(db.sessions) && db.bookings == old(db.bookings)
    ensures identity.None? ==> resp == Fail(Unauthorized, UnauthorizedMsg) && db.experts == old(db.experts)
    ensures identity.Some? && !ExperienceOk(body.experience) ==>
      resp == Fail(BadRequest, InvalidExperienceMsg) && db.experts == old(db.experts)
    ensures identity.Some? && ExperienceOk(body.experience) && ExpertByClerkId(old(db.experts), identity.value).None? ==>
      resp == Fail(Internal, UpdateFailedMsg) && db.experts == old(db.experts)
    ensures identity.Some? && ExperienceOk(body.experience) && ExpertByClerkId(old(db.experts), identity.value).Some? ==>
      db.experts == UpdateByClerkId(old(db.experts), identity.value, body, now) &&
      resp == Ok(UpdatedProfile(ExpertByClerkId(old(db.experts), identity.value).value, body, now))
  {
    if identity.None? {
      return Fail(Unauthorized, UnauthorizedMsg);
    }
    if !ExperienceOk(body.experience) {
      return Fail(BadRequest, InvalidExperienceMsg);
    }
    var e := ExpertByClerkId(db.experts, identity.value);
    if e.None? {
      return Fail(Internal, UpdateFailedMsg);
    }
    UpdateKeepsUnique(db.experts, identity.value, body, now);
    UpdatedRowFound(db.experts, identity.value, body, now);
    db.experts := UpdateByClerkId(db.experts, identity.value, body, now);
    resp := Ok(UpdatedProfile(e.value, body, now));
  }

  /** A specialization shown as `tags.join(", ")` and sent back as text is
      stored as the same list, when every tag is non-empty, trimmed and
      free of commas. */
  lemma JoinedTagsComeBack(e: Expert, tags: seq<string>, bio: Option<string>, experience: NumInput, now: int)
    requires forall t :: t in tags ==> t != "" && Trimmed(t) && ',' !in t
    ensures UpdatedProfile(e, ProfileBody(bio, SpecText(JoinTags(tags)), experience), now).specialization == tags
  {
    JoinThenSplitTags(tags);
  }

  /** Zero years of experience can never be saved over a stored value:
      `0 || undefined` leaves the column as it was. */
  lemma ZeroExperienceIgnored(e: Expert, bio: Option<string>, spec: SpecInput, now: int)
    ensures ExperienceOk(Given(Some(0)))
    ensures UpdatedProfile(e, ProfileBody(bio, spec, Given(Some(0))), now).experience == e.experience
  {
  }
}
