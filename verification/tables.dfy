/** The persistent tables the controllers read and write, held in memory. Each table is a
    map from its lookup key to its row; `Store.Valid` states what stays true of them (row
    keys agree with row fields, every reference resolves, stored ratings passed the
    bounds check). */
module Tables {
  import opened Common

  datatype User = User(id: string, firebaseUid: string, email: string, displayName: Option<string>)

  /** The public part of a user row, as the `select { id, displayName, email }` returns it. */
  datatype UserSummary = UserSummary(id: string, displayName: Option<string>, email: string)

  /** `date` is an opaque instant: the model never looks inside it beyond its order. */
  datatype Event = Event(
    id: string,
    title: string,
    description: Option<string>,
    date: int,
    location: string,
    organizerId: string)

  datatype AttendanceStatus = Confirmed | Cancelled

  /** The composite key `userId_eventId` of the attendance and review tables; `userId` is the
      local user id, not the Firebase uid. */
  datatype PairKey = PairKey(userId: string, eventId: string)

  datatype Attendance = Attendance(userId: string, eventId: string, status: AttendanceStatus, createdAt: int)

  /** `rating` holds whatever number passed the controller's bounds check. */
  datatype Review = Review(userId: string, eventId: string, rating: real, comment: Option<string>, createdAt: int)

  type UserTable = map<string, User>               // keyed by firebaseUid
  type EventTable = map<string, Event>             // keyed by id
  type AttendanceTable = map<PairKey, Attendance>  // keyed by (userId, eventId)
  type ReviewTable = map<PairKey, Review>          // keyed by (userId, eventId)

  function Summary(u: User): UserSummary {
    UserSummary(u.id, u.displayName, u.email)
  }

  /** The local ids in use. */
  function UserIds(users: UserTable): set<string> {
    set k | k in users :: users[k].id
  }

  /** Rows are keyed by their Firebase uid, and local ids (the primary key) are unique. */
  ghost predicate UsersKeyed(users: UserTable) {
    && (forall k :: k in users ==> users[k].firebaseUid == k)
    && (forall k1, k2 :: k1 in users && k2 in users && users[k1].id == users[k2].id ==> k1 == k2)
  }

  /** The (user, event) pair a row names. */
  function AttendancePair(a: Attendance): PairKey {
    PairKey(a.userId, a.eventId)
  }

  function ReviewPair(v: Review): PairKey {
    PairKey(v.userId, v.eventId)
  }

  /** Every row of a pair-keyed table names the pair it is stored under. */
  ghost predicate RowsMatchKeys<V>(t: map<PairKey, V>, pair: V -> PairKey) {
    forall k :: k in t ==> pair(t[k]) == k
  }

  /** The keys of the rows recorded for user `userId` at event `eventId`. */
  ghost function RowsFor<V>(t: map<PairKey, V>, pair: V -> PairKey, userId: string, eventId: string): set<PairKey> {
    set k | k in t && pair(t[k]) == PairKey(userId, eventId)
  }

  ghost predicate EventsKeyed(users: UserTable, events: EventTable) {
    forall k :: k in events ==> events[k].id == k && events[k].organizerId in UserIds(users)
  }

  ghost predicate AttendancesKeyed(users: UserTable, events: EventTable, attendances: AttendanceTable) {
    forall p :: p in attendances ==>
      && attendances[p].userId == p.userId && attendances[p].eventId == p.eventId
      && p.userId in UserIds(users) && p.eventId in events
  }

  /** Besides the references, every stored rating lies in [1, 5]: the only way in is the
      bounds-checked review upsert. */
  ghost predicate ReviewsKeyed(users: UserTable, events: EventTable, reviews: ReviewTable) {
    forall p :: p in reviews ==>
      && reviews[p].userId == p.userId && reviews[p].eventId == p.eventId
      && p.userId in UserIds(users) && p.eventId in events
      && 1.0 <= reviews[p].rating <= 5.0
  }

  /** The user whose local id is `id`. */
  ghost function UserWithId(users: UserTable, id: string): (u: User)
    requires id in UserIds(users)
    ensures u in users.Values && u.id == id
  {
    var k :| k in users && users[k].id == id;
    users[k]
  }

  class Store {
    var users: UserTable
    var events: EventTable
    var attendances: AttendanceTable
    var reviews: ReviewTable

    ghost predicate Valid()
      reads this
    {
      && UsersKeyed(users)
      && EventsKeyed(users, events)
      && AttendancesKeyed(users, events, attendances)
      && ReviewsKeyed(users, events, reviews)
    }

    constructor ()
      ensures Valid()
      ensures users == map[] && events == map[] && attendances == map[] && reviews == map[]
    {
      users, events, attendances, reviews := map[], map[], map[], map[];
    }
  }
}
