/** `GET /api/admin/stats`: the dashboard's totals, the five newest
    bookings and the list of experts that are not archived. */
module AdminStatsRoute {
  import opened Common
  import opened Seqs
  import opened Schema

  const UnauthorizedMsg := "Unauthorized"
  const RecentWindow := 5

  datatype Stats = Stats(experts: nat, students: nat, bookings: nat, sessions: nat, revenue: int)

  datatype StatsReply = StatsReply(stats: Stats, recentBookings: seq<Booking>, experts: seq<Expert>)

  /** Every booking, newest first by creation time. */
  function NewestFirst(bookings: seq<Booking>): (r: seq<Booking>)
    ensures multiset(r) == multiset(bookings)
    ensures forall i, j :: 0 <= i < j < |r| ==> r[i].createdAt >= r[j].createdAt
  {
    var r := SortBy(bookings, BookingCreatedDesc);
    assert forall i, j :: 0 <= i < j < |r| ==> BookingCreatedDesc(r[i]) <= BookingCreatedDesc(r[j]);
    r
  }

  /** `findMany({ take: 5, orderBy: { createdAt: 'desc' } })`. */
  function RecentBookings(bookings: seq<Booking>): (r: seq<Booking>)
    ensures |r| == if |bookings| < RecentWindow then |bookings| else RecentWindow
    ensures r == NewestFirst(bookings)[..|r|]
  {
    Take(NewestFirst(bookings), RecentWindow)
  }

  /** The window holds the newest bookings: it and the bookings left out
      make up the whole table, and none left out is newer than one kept. */
  lemma RecentAreNewest(bookings: seq<Booking>)
    ensures var recent := RecentBookings(bookings);
            var rest := NewestFirst(bookings)[|recent|..];
            multiset(recent) + multiset(rest) == multiset(bookings) &&
            forall x, y :: x in recent && y in rest ==> x.createdAt >= y.createdAt
  {
    var all := NewestFirst(bookings);
    var recent := RecentBookings(bookings);
    var rest := all[|recent|..];
    assert all == recent + rest;
    forall x, y | x in recent && y in rest ensures x.createdAt >= y.createdAt {
      var i :| 0 <= i < |recent| && recent[i] == x;
      var j :| 0 <= j < |rest| && rest[j] == y;
      assert all[i] == x && all[|recent| + j] == y;
    }
  }

  predicate NotArchived(e: Expert) { !e.isDeleted }

  /** Experts not archived, newest first by creation time. */
  function CurrentExperts(experts: seq<Expert>): (r: seq<Expert>)
    ensures forall e :: e in r <==> e in experts && !e.isDeleted
    ensures forall e :: multiset(r)[e] == if NotArchived(e) then multiset(experts)[e] else 0
    ensures |r| == CountWhere(experts, NotArchived)
    ensures forall i, j :: 0 <= i < j < |r| ==> r[i].createdAt >= r[j].createdAt
  {
    var r := Query(experts, NotArchived, ExpertCreatedDesc);
    assert forall i, j :: 0 <= i < j < |r| ==> ExpertCreatedDesc(r[i]) <= ExpertCreatedDesc(r[j]);
    r
  }

  /** `GET /api/admin/stats`. Any signed-in caller gets the figures. */
  function AdminStats(users: seq<User>, experts: seq<Expert>, slots: seq<LiveSession>, bookings: seq<Booking>,
                      identity: Option<string>): (r: Response<StatsReply>)
    ensures identity.None? <==> r == Fail(Unauthorized, UnauthorizedMsg)
    ensures r.Ok? ==> r.value.stats.experts == CountWhere(experts, NotArchived)
    ensures r.Ok? ==> r.value.stats.students == |users| && r.value.stats.bookings == |bookings| &&
                      r.value.stats.sessions == |slots| && r.value.stats.revenue == 0
    ensures r.Ok? ==> r.value.recentBookings == RecentBookings(bookings)
    ensures r.Ok? ==> r.value.experts == CurrentExperts(experts)
    ensures r.Ok? ==> r.value.stats.experts == |r.value.experts|
  {
    if identity.None? then Fail(Unauthorized, UnauthorizedMsg)
    else
      var current := CurrentExperts(experts);
      Ok(StatsReply(Stats(CountWhere(experts, NotArchived), |users|, |bookings|, |slots|, 0),
                    RecentBookings(bookings), current))
  }
}
