/** The persistent store: the four tables every handler reads, held as one
    object that the mutating handlers update in place. */
module Store {
  import opened Schema

  class Db {
    var users: seq<User>
    var experts: seq<Expert>
    var sessions: seq<LiveSession>
    var bookings: seq<Booking>

    /** The tables satisfy the store's uniqueness, reference, capacity and
        single-registration invariant. */
    ghost predicate Valid()
      reads this
    {
      Consistent(users, experts, sessions, bookings)
    }

    /** An empty store. */
    constructor ()
      ensures users == [] && experts == [] && sessions == [] && bookings == []
      ensures Valid()
    {
      users := [];
      experts := [];
      sessions := [];
      bookings := [];
    }
  }
}
