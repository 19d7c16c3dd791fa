/** `GET /api/experts`: the public directory of active experts, best rated
    first, each with the number of sessions they have completed. */
module ExpertsRoute {
  import opened Seqs
  import opened Schema

  /** The fields the directory publishes; email, identity and the flags
      stay private. */
  datatype PublicExpert = PublicExpert(
    id: string,
    firstName: string,
    lastName: string,
    specialization: seq<string>,
    experience: int,
    rating: int,
    bio: string,
    sessionsCompleted: nat)

  /** A booking of expert `expertId` that has been completed. */
  function CompletedFor(expertId: string): Booking -> bool
  {
    (b: Booking) => b.expertId == expertId && b.status == "completed"
  }

  /** `_count.bookings` restricted to completed ones. */
  function Completed(bookings: seq<Booking>, expertId: string): (n: nat)
    ensures n <= |bookings|
    ensures n == 0 <==> forall b :: b in bookings ==> !(b.expertId == expertId && b.status == "completed")
  {
    CountWhere(bookings, CompletedFor(expertId))
  }

  /** The directory entry of `e`: `p` copies `e`'s public fields and
      carries its completed count. */
  ghost predicate EntryOf(p: PublicExpert, e: Expert, bookings: seq<Booking>)
  {
    p.id == e.id && p.firstName == e.firstName && p.lastName == e.lastName &&
    p.specialization == e.specialization && p.experience == e.experience &&
    p.rating == e.rating && p.bio == e.bio && p.sessionsCompleted == Completed(bookings, e.id)
  }

  function Publish(e: Expert, bookings: seq<Booking>): (p: PublicExpert)
    ensures EntryOf(p, e, bookings)
  {
    PublicExpert(e.id, e.firstName, e.lastName, e.specialization, e.experience, e.rating, e.bio,
                 Completed(bookings, e.id))
  }

  function RatingDesc(e: Expert): int { -e.rating }

  predicate Listed(e: Expert) { e.isActive }

  /** `findMany({ where: { isActive: true }, orderBy: { rating: 'desc' } })`.
      `isActive` alone decides who is listed; `isDeleted` is not looked at. */
  function ActiveByRating(experts: seq<Expert>): (q: seq<Expert>)
    ensures forall e :: e in q <==> e in experts && e.isActive
    ensures |q| == CountWhere(experts, Listed)
    ensures forall i, j :: 0 <= i < j < |q| ==> q[i].rating >= q[j].rating
  {
    var q := Query(experts, Listed, RatingDesc);
    assert forall i, j :: 0 <= i < j < |q| ==> RatingDesc(q[i]) <= RatingDesc(q[j]);
    q
  }

  /** The directory: each listed expert's public entry, in the query's
      order. It needs no identity and writes nothing. */
  function PublicExperts(experts: seq<Expert>, bookings: seq<Booking>): (r: seq<PublicExpert>)
    ensures |r| == CountWhere(experts, Listed)
    ensures forall i :: 0 <= i < |r| ==> EntryOf(r[i], ActiveByRating(experts)[i], bookings)
    ensures forall i, j :: 0 <= i < j < |r| ==> r[i].rating >= r[j].rating
  {
    var q := ActiveByRating(experts);
    var r := PublishAll(q, bookings);
    assert forall i :: 0 <= i < |r| ==> r[i].rating == q[i].rating;
    r
  }

  /** `q.map(e => ...)`: the entries of `q`, in order. */
  function PublishAll(q: seq<Expert>, bookings: seq<Booking>): (r: seq<PublicExpert>)
    ensures |r| == |q|
    ensures forall i :: 0 <= i < |r| ==> EntryOf(r[i], q[i], bookings)
    decreases |q|
  {
    if q == [] then []
    else [Publish(q[0], bookings)] + PublishAll(q[1..], bookings)
  }

  /** Exactly the active experts have an entry. */
  lemma DirectoryMembers(experts: seq<Expert>, bookings: seq<Booking>, e: Expert)
    ensures e in experts && e.isActive <==>
            exists i :: 0 <= i < |PublicExperts(experts, bookings)| && ActiveByRating(experts)[i] == e
  {
    var q := ActiveByRating(experts);
    if e in experts && e.isActive {
      var i :| 0 <= i < |q| && q[i] == e;
    }
  }

  /** An archived expert that is still marked active stays in the
      directory. */
  lemma ArchivedButActiveIsListed(experts: seq<Expert>, bookings: seq<Booking>, e: Expert)
    requires e in experts && e.isActive && e.isDeleted
    ensures exists i :: 0 <= i < |PublicExperts(experts, bookings)| && PublicExperts(experts, bookings)[i].id == e.id
  {
    DirectoryMembers(experts, bookings, e);
    var i :| 0 <= i < |PublicExperts(experts, bookings)| && ActiveByRating(experts)[i] == e;
  }
}
