/** `/api/admin/experts`: create an expert (`POST`), change its flags
    (`PATCH`), archive or purge it (`DELETE`), and list the active or the
    archived experts (`GET`). */
module AdminExpertsRoute {
  import opened Common
  import opened Seqs
  import opened Text
  import opened Schema
  import opened Store

  const UnauthorizedMsg := "Unauthorized"
  const FirstNameMsg := "First name is required"
  const LastNameMsg := "Last name is required"
  const EmailMsg := "A valid email address is required"
  const ExperienceMsg := "Invalid experience"
  const DuplicateMsg := "An expert with this email already exists."
  const UpdateFailedMsg := "Failed to update expert"
  const DeleteFailedMsg := "Failed to delete expert"
  const IdRequiredMsg := "ID is required"

  /** The rating a new row starts with: the store's column default, which
      the handler does not set. */
  const DefaultRating := 0

  // ----- POST -----

  /** The JSON body of `POST`; `experience` is held as `parseInt`'s result. */
  datatype NewExpertBody = NewExpertBody(
    firstName: Option<string>,
    lastName: Option<string>,
    email: Option<string>,
    specialization: Option<seq<string>>,
    bio: Option<string>,
    experience: Option<int>)

  /** `!x || x.trim() === ""`. */
  predicate Blank(x: Option<string>)
  {
    !Truthy(x) || Trim(x.value) == ""
  }

  /** `email && email.includes("@")`. */
  predicate HasAt(email: Option<string>)
  {
    email.Some? && Contains(email.value, "@")
  }

  predicate AcceptableExpert(body: NewExpertBody)
  {
    !Blank(body.firstName) && !Blank(body.lastName) && HasAt(body.email) &&
    body.experience.Some? && body.experience.value >= 0
  }

  /** The message of the first failing check of the `POST` handler, in order. */
  function NewExpertError(body: NewExpertBody): (r: Option<string>)
    ensures r.None? <==> AcceptableExpert(body)
    ensures Blank(body.firstName) ==> r == Some(FirstNameMsg)
    ensures (!Blank(body.firstName) && Blank(body.lastName)) ==> r == Some(LastNameMsg)
    ensures (!Blank(body.firstName) && !Blank(body.lastName) && !HasAt(body.email)) ==> r == Some(EmailMsg)
    ensures (!Blank(body.firstName) && !Blank(body.lastName) && HasAt(body.email) &&
             (body.experience.None? || body.experience.value < 0)) ==> r == Some(ExperienceMsg)
  {
    if Blank(body.firstName) then Some(FirstNameMsg)
    else if Blank(body.lastName) then Some(LastNameMsg)
    else if !HasAt(body.email) then Some(EmailMsg)
    else if body.experience.None? || body.experience.value < 0 then Some(ExperienceMsg)
    else None
  }

  /** The identity the new row is linked to: the caller's own when the
      body's email is one of the caller's addresses (self-registration),
      otherwise a freshly made placeholder. */
  function ClerkIdFor(identity: string, callerEmails: seq<string>, email: string, freshClerkId: string): (c: string)
    ensures email in callerEmails ==> c == identity
    ensures email !in callerEmails ==> c == freshClerkId
  {
    if email in callerEmails then identity else freshClerkId
  }

  /** Some row already holds the email or the identity: the store's
      unique constraint refuses the insert. */
  predicate Taken(experts: seq<Expert>, email: string, clerkId: string)
  {
    exists e :: e in experts && (e.email == email || e.clerkId == Some(clerkId))
  }

  /** The outcome of `POST` for a signed-in caller. */
  function PlanNewExpert(experts: seq<Expert>, identity: string, callerEmails: seq<string>, body: NewExpertBody,
                         id: string, freshClerkId: string, now: int): (r: Response<Expert>)
    ensures NewExpertError(body).Some? ==> r == Fail(BadRequest, NewExpertError(body).value)
    ensures NewExpertError(body).None? ==>
      (r.Fail? <==> Taken(experts, body.email.value, ClerkIdFor(identity, callerEmails, body.email.value, freshClerkId)))
    ensures NewExpertError(body).None? && r.Fail? ==> r == Fail(Conflict, DuplicateMsg)
    ensures r.Ok? ==> (AcceptableExpert(body) && r.value.id == id &&
      r.value.clerkId == Some(ClerkIdFor(identity, callerEmails, body.email.value, freshClerkId)) &&
      r.value.email == body.email.value &&
      r.value.firstName == body.firstName.value && r.value.lastName == body.lastName.value &&
      r.value.specialization == (if body.specialization.Some? then body.specialization.value else []) &&
      r.value.bio == Or(body.bio, "") && r.value.experience == body.experience.value &&
      r.value.rating == DefaultRating && r.value.isActive && !r.value.isDeleted &&
      r.value.createdAt == now && r.value.updatedAt == now)
    ensures r.Ok? ==> !Taken(experts, r.value.email, r.value.clerkId.value)
  {
    match NewExpertError(body)
    case Some(msg) => Fail(BadRequest, msg)
    case None =>
      var email := body.email.value;
      var clerkId := ClerkIdFor(identity, callerEmails, email, freshClerkId);
      if Taken(experts, email, clerkId) then Fail(Conflict, DuplicateMsg)
      else
        Ok(Expert(id, Some(clerkId), email, Or(body.firstName, "Expert"), Or(body.lastName, ""),
                  if body.specialization.Some? then body.specialization.value else [],
                  Or(body.bio, ""), OrNumber(body.experience, 0), DefaultRating, true, false, now, now))
  }

  /** A row whose id, email and identity are all new keeps the expert
      table's keys unique. */
  lemma AddExpertKeepsUnique(experts: seq<Expert>, e: Expert)
    requires UniqueExperts(experts)
    requires e.id !in ExpertIds(experts)
    requires e.clerkId.Some? && !Taken(experts, e.email, e.clerkId.value)
    ensures UniqueExperts(experts + [e])
  {
    var r := experts + [e];
    forall i, j | 0 <= i < j < |r|
      ensures r[i].id != r[j].id && r[i].email != r[j].email && (r[i].clerkId.Some? ==> r[i].clerkId != r[j].clerkId)
    {
      if j == |experts| {
        assert r[i] in experts;
      }
    }
  }

  /** `POST /api/admin/experts`. `callerEmails` are the caller's addresses
      at the identity provider; `freshClerkId` the placeholder identity the
      handler would make up. Rejections write nothing. */
  method CreateExpert(db: Db, identity: Option<string>, callerEmails: seq<string>, body: NewExpertBody,
                      freshId: string, freshClerkId: string, now: int) returns (resp: Response<Expert>)
    requires db.Valid()
    requires freshId !in ExpertIds(db.experts)
    modifies db
    ensures db.Valid()
    ensures db.users == old(db.users) && db.sessions == old(db.sessions) && db.bookings == old(db.bookings)
    ensures identity.None? ==> resp == Fail(Unauthorized, UnauthorizedMsg)
    ensures identity.Some? ==> resp == PlanNewExpert(old(db.experts), identity.value, callerEmails, body, freshId, freshClerkId, now)
    ensures resp.Ok? ==> db.experts == old(db.experts) + [resp.value]
    ensures resp.Fail? ==> db.experts == old(db.experts)
  {
    if identity.None? {
      return Fail(Unauthorized, UnauthorizedMsg);
    }
    resp := PlanNewExpert(db.experts, identity.value, callerEmails, body, freshId, freshClerkId, now);
    if resp.Ok? {
      AddExpertKeepsUnique(db.experts, resp.value);
      db.experts := db.experts + [resp.value];
    }
  }

  // ----- PATCH -----

  /** `{ ...(isActive !== undefined && { isActive }), ...(isDeleted !== undefined && { isDeleted }) }`
      applied to one row; the store stamps `updatedAt`. */
  function WithFlags(e: Expert, isActive: Option<bool>, isDeleted: Option<bool>, now: int): (r: Expert)
    ensures r.isActive == if isActive.Some? then isActive.value else e.isActive
    ensures r.isDeleted == if isDeleted.Some? then isDeleted.value else e.isDeleted
    ensures r.updatedAt == now
    ensures r.(isActive := e.isActive, isDeleted := e.isDeleted, updatedAt := e.updatedAt) == e
  {
    e.(isActive := if isActive.Some? then isActive.value else e.isActive,
       isDeleted := if isDeleted.Some? then isDeleted.value else e.isDeleted,
       updatedAt := now)
  }

  /** `expert.update({ where: { id } })` on the table: the row with that
      id gets the flags, every other row stays. */
  function UpdateFlags(experts: seq<Expert>, id: string, isActive: Option<bool>, isDeleted: Option<bool>, now: int)
    : (r: seq<Expert>)
    ensures |r| == |experts|
    ensures forall i :: 0 <= i < |r| && experts[i].id != id ==> r[i] == experts[i]
    ensures forall i :: 0 <= i < |r| && experts[i].id == id ==> r[i] == WithFlags(experts[i], isActive, isDeleted, now)
  {
    seq(|experts|, i requires 0 <= i < |experts| =>
      if experts[i].id == id then WithFlags(experts[i], isActive, isDeleted, now) else experts[i])
  }

  /** Changing flags leaves every key alone, so keys stay unique, and the
      row is found under the same id, with the new flags. */
  lemma UpdateFlagsKeepsUnique(experts: seq<Expert>, id: string, isActive: Option<bool>, isDeleted: Option<bool>, now: int)
    requires UniqueExperts(experts)
    ensures UniqueExperts(UpdateFlags(experts, id, isActive, isDeleted, now))
    ensures ExpertById(experts, id).Some? ==>
      ExpertById(UpdateFlags(experts, id, isActive, isDeleted, now), id)
        == Some(WithFlags(ExpertById(experts, id).value, isActive, isDeleted, now))
  {
    var r := UpdateFlags(experts, id, isActive, isDeleted, now);
    assert UniqueExperts(r) by {
      forall i, j | 0 <= i < j < |r|
        ensures r[i].id != r[j].id && r[i].email != r[j].email && (r[i].clerkId.Some? ==> r[i].clerkId != r[j].clerkId)
      {
        UpdateFlagsKeepsKeys(experts, id, isActive, isDeleted, now, i);
        UpdateFlagsKeepsKeys(experts, id, isActive, isDeleted, now, j);
      }
    }
    if ExpertById(experts, id).Some? {
      var e := ExpertById(experts, id).value;
      var k :| 0 <= k < |experts| && experts[k] == e;
      UpdateFlagsKeepsKeys(experts, id, isActive, isDeleted, now, k);
      var f := ExpertById(r, id).value;
      var m :| 0 <= m < |r| && r[m] == f;
      UpdateFlagsKeepsKeys(experts, id, isActive, isDeleted, now, m);
      assert m == k;
    }
  }

  /** Changing flags leaves every row's keys alone. */
  lemma UpdateFlagsKeepsKeys(experts: seq<Expert>, id: string, isActive: Option<bool>, isDeleted: Option<bool>,
                             now: int, i: int)
    requires 0 <= i < |experts|
    ensures var r := UpdateFlags(experts, id, isActive, isDeleted, now);
            r[i].id == experts[i].id && r[i].email == experts[i].email && r[i].clerkId == experts[i].clerkId
  {
  }

  /** The body of `PATCH`. */
  datatype FlagPatch = FlagPatch(id: Option<string>, isActive: Option<bool>, isDeleted: Option<bool>)

  /** `PATCH /api/admin/experts`: only the flags that are present are
      written. A missing id or an unknown row makes the store's update
      fail, which the handler reports as a 500. */
  method PatchExpert(db: Db, identity: Option<string>, patch: FlagPatch, now: int) returns (resp: Response<Expert>)
    requires db.Valid()
    modifies db
    ensures db.Valid()
    ensures db.users == old(db.users) && db.sessions == old(db.sessions) && db.bookings == old(db.bookings)
    ensures identity.None? ==> resp == Fail(Unauthorized, UnauthorizedMsg) && db.experts == old(db.experts)
    ensures identity.Some? && (patch.id.None? || ExpertById(old(db.experts), patch.id.value).None?) ==>
      resp == Fail(Internal, UpdateFailedMsg) && db.experts == old(db.experts)
    ensures identity.Some? && patch.id.Some? && ExpertById(old(db.experts), patch.id.value).Some? ==>
      db.experts == UpdateFlags(old(db.experts), patch.id.value, patch.isActive, patch.isDeleted, now) &&
      resp == Ok(WithFlags(ExpertById(old(db.experts), patch.id.value).value, patch.isActive, patch.isDeleted, now))
  {
    if identity.None? {
      return Fail(Unauthorized, UnauthorizedMsg);
    }
    if patch.id.None? || ExpertById(db.experts, patch.id.value).None? {
      return Fail(Internal, UpdateFailedMsg);
    }
    var e := ExpertById(db.experts, patch.id.value).value;
    UpdateFlagsKeepsUnique(db.experts, patch.id.value, patch.isActive, patch.isDeleted, now);
    db.experts := UpdateFlags(db.experts, patch.id.value, patch.isActive, patch.isDeleted, now);
    resp := Ok(WithFlags(e, patch.isActive, patch.isDeleted, now));
  }

  // ----- DELETE -----

  /** `expert.delete({ where: { id } })` on the table: the row with that id
      goes, the others stay in order. */
  function RemoveById(experts: seq<Expert>, id: string): (r: seq<Expert>)
    ensures ExpertById(experts, id).None? ==> r == experts
    ensures ExpertById(experts, id).Some? ==> |r| == |experts| - 1
    ensures forall e :: e in r ==> e in experts
    ensures UniqueExperts(experts) ==> forall e :: e in r <==> e in experts && e.id != id
  {
    match FindFirst(experts, (e: Expert) => e.id == id)
    case None => experts
    case Some(k) =>
      RemoveAt(experts, id, k);
      experts[..k] + experts[k + 1..]
  }

  /** Cutting out the first row with id `id` keeps the others; with unique
      ids, it drops exactly that id. */
  lemma RemoveAt(experts: seq<Expert>, id: string, k: nat)
    requires k < |experts| && experts[k].id == id
    requires forall j :: 0 <= j < k ==> experts[j].id != id
    ensures var r := experts[..k] + experts[k + 1..];
            |r| == |experts| - 1 && (forall e :: e in r ==> e in experts) &&
            (UniqueExperts(experts) ==> forall e :: e in r <==> e in experts && e.id != id)
  {
    var r := experts[..k] + experts[k + 1..];
    assert experts == experts[..k] + [experts[k]] + experts[k + 1..];
    assert forall e :: e in r <==> e in experts[..k] || e in experts[k + 1..];
    if UniqueExperts(experts) {
      forall e | e in experts[k + 1..] ensures e.id != id {
        var m :| 0 <= m < |experts| - k - 1 && experts[k + 1..][m] == e;
        assert experts[k + 1 + m] == e;
      }
    }
  }

  /** Purging a row keeps the remaining keys unique. */
  lemma RemoveKeepsUnique(experts: seq<Expert>, id: string)
    requires UniqueExperts(experts)
    ensures UniqueExperts(RemoveById(experts, id))
  {
    match FindFirst(experts, (e: Expert) => e.id == id)
    case None =>
    case Some(k) =>
      RemoveAtKeepsUnique(experts, k);
  }

  lemma RemoveAtKeepsUnique(experts: seq<Expert>, k: nat)
    requires UniqueExperts(experts)
    requires k < |experts|
    ensures UniqueExperts(experts[..k] + experts[k + 1..])
  {
    var a := experts[..k];
    var b := experts[k + 1..];
    var r := a + b;
    forall i, j | 0 <= i < j < |r|
      ensures r[i].id != r[j].id && r[i].email != r[j].email && (r[i].clerkId.Some? ==> r[i].clerkId != r[j].clerkId)
    {
      var i' := if i < k then i else i + 1;
      var j' := if j < k then j else j + 1;
      assert r[i] == experts[i'] by {
        if i < k { assert r[i] == a[i]; } else { assert r[i] == b[i - k]; }
      }
      assert r[j] == experts[j'] by {
        if j < k { assert r[j] == a[j]; } else { assert r[j] == b[j - k]; }
      }
    }
  }

  /** `DELETE /api/admin/experts?id=…&permanent=…`. `permanent=true` purges
      the row; any other value archives it (`isDeleted` set, `isActive`
      cleared). An unknown id makes the store fail: a 500. */
  method DeleteExpert(db: Db, identity: Option<string>, id: Option<string>, permanent: Option<string>, now: int)
    returns (resp: Response<()>)
    requires db.Valid()
    modifies db
    ensures db.Valid()
    ensures db.users == old(db.users) && db.sessions == old(db.sessions) && db.bookings == old(db.bookings)
    ensures identity.None? ==> resp == Fail(Unauthorized, UnauthorizedMsg) && db.experts == old(db.experts)
    ensures identity.Some? && !Truthy(id) ==> resp == Fail(BadRequest, IdRequiredMsg) && db.experts == old(db.experts)
    ensures identity.Some? && Truthy(id) && ExpertById(old(db.experts), id.value).None? ==>
      resp == Fail(Internal, DeleteFailedMsg) && db.experts == old(db.experts)
    ensures identity.Some? && Truthy(id) && ExpertById(old(db.experts), id.value).Some? ==>
      resp == Ok(()) &&
      db.experts == if permanent == Some("true") then RemoveById(old(db.experts), id.value)
                    else UpdateFlags(old(db.experts), id.value, Some(false), Some(true), now)
  {
    if identity.None? {
      return Fail(Unauthorized, UnauthorizedMsg);
    }
    if !Truthy(id) {
      return Fail(BadRequest, IdRequiredMsg);
    }
    if ExpertById(db.experts, id.value).None? {
      return Fail(Internal, DeleteFailedMsg);
    }
    if permanent == Some("true") {
      RemoveKeepsUnique(db.experts, id.value);
      db.experts := RemoveById(db.experts, id.value);
    } else {
      UpdateFlagsKeepsUnique(db.experts, id.value, Some(false), Some(true), now);
      db.experts := UpdateFlags(db.experts, id.value, Some(false), Some(true), now);
    }
    resp := Ok(());
  }

  /** Archiving and then restoring (`{ isDeleted: false, isActive: true }`)
      gives back every row as it was, except that the restored row is
      active and not archived, and carries the later `updatedAt`. */
  lemma {:induction false} ArchiveThenRestore(experts: seq<Expert>, id: string, t1: int, t2: int)
    ensures var r := UpdateFlags(UpdateFlags(experts, id, Some(false), Some(true), t1), id, Some(true), Some(false), t2);
      |r| == |experts| &&
      forall i :: 0 <= i < |r| ==>
        r[i] == if experts[i].id == id then experts[i].(isActive := true, isDeleted := false, updatedAt := t2)
                else experts[i]
  {
    var a := UpdateFlags(experts, id, Some(false), Some(true), t1);
    var r := UpdateFlags(a, id, Some(true), Some(false), t2);
    forall i | 0 <= i < |r|
      ensures r[i] == if experts[i].id == id then experts[i].(isActive := true, isDeleted := false, updatedAt := t2)
                      else experts[i]
    {
      assert a[i].id == experts[i].id;
    }
  }

  // ----- GET -----

  /** `GET /api/admin/experts?deleted=…`: the archived experts when
      `deleted=true`, otherwise the others, most recently updated first. */
  function ListExperts(experts: seq<Expert>, identity: Option<string>, deleted: Option<string>)
    : (r: Response<seq<Expert>>)
    ensures identity.None? <==> r == Fail(Unauthorized, UnauthorizedMsg)
    ensures r.Ok? ==> forall e :: e in r.value <==> e in experts && e.isDeleted == (deleted == Some("true"))
    ensures r.Ok? ==> forall e :: multiset(r.value)[e] ==
                                 if e.isDeleted == (deleted == Some("true")) then multiset(experts)[e] else 0
    ensures r.Ok? ==> forall i, j :: 0 <= i < j < |r.value| ==> r.value[i].updatedAt >= r.value[j].updatedAt
  {
    if identity.None? then Fail(Unauthorized, UnauthorizedMsg)
    else
      var archived := deleted == Some("true");
      var r := Query(experts, (e: Expert) => e.isDeleted == archived, ExpertUpdatedDesc);
      assert forall i, j :: 0 <= i < j < |r| ==> ExpertUpdatedDesc(r[i]) <= ExpertUpdatedDesc(r[j]);
      Ok(r)
  }
}
