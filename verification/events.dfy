/** The event controller: creating and listing events, and the attendance (RSVP) ledger.
    Every handler runs its guards in the source's order and turns any database exception
    into a 500 without touching the store. `fault` says whether the database throws on its
    first call; `now` and `freshId` stand for the timestamp and the id the database would
    generate. */
module EventController {
  import opened Common
  import opened Tables
  import opened Ordering
  import opened Auth

  const NOT_AUTHENTICATED: string := "No autenticado"
  const USER_NOT_FOUND: string := "Usuario no encontrado"
  const ID_REQUIRED: string := "ID de evento requerido"
  const EVENT_NOT_FOUND: string := "Evento no encontrado"
  const CREATE_FAILED: string := "Error al crear evento"
  const LIST_FAILED: string := "Error al obtener eventos"
  const GET_FAILED: string := "Error al obtener evento"
  const ATTEND_FAILED: string := "Error al confirmar asistencia"
  const CANCEL_FAILED: string := "Error al cancelar asistencia"
  const HISTORY_FAILED: string := "Error al obtener historial"

  /** The JSON body of `POST /events`; a field the client left out is `None`, and a `date`
      that `new Date(...)` cannot read is `None` too. */
  datatype EventBody = EventBody(title: Option<string>, description: Option<string>, date: Option<int>, location: Option<string>)

  /** One entry of the event list: the event, its organizer and its row counts. */
  datatype Listing = Listing(event: Event, organizer: UserSummary, attendanceCount: nat, reviewCount: nat)

  /** The event detail: the event with its organizer and all its attendance and review rows. */
  datatype EventDetail = EventDetail(event: Event, organizer: UserSummary, attendances: set<Attendance>, reviews: set<Review>)

  datatype AttendedEvent = AttendedEvent(attendance: Attendance, event: Event)

  /** The answer of `GET /events/my-events`. */
  datatype UserEvents = UserEvents(organized: seq<Event>, attended: seq<AttendedEvent>)

  // ----- the attendance ledger -----

  /** Where the pair `key` stands: no row yet, or a row with its status. */
  function StateOf(t: AttendanceTable, key: PairKey): Option<AttendanceStatus> {
    if key in t then Some(t[key].status) else None
  }

  /** The `upsert` of `attendEvent`: the pair's row becomes confirmed, keeping its creation
      time when it already existed; every other row stays as it was. */
  function Attend(t: AttendanceTable, key: PairKey, now: int): (t': AttendanceTable)
    ensures StateOf(t', key) == Some(Confirmed)
    ensures t'.Keys == t.Keys + {key}
    ensures forall k :: k in t && k != key ==> t'[k] == t[k]
    ensures key in t ==> t'[key].createdAt == t[key].createdAt
    ensures key !in t ==> t'[key].createdAt == now
    ensures RowsMatchKeys(t, AttendancePair) ==> RowsMatchKeys(t', AttendancePair)
  {
    if key in t then t[key := t[key].(status := Confirmed)]
    else t[key := Attendance(key.userId, key.eventId, Confirmed, now)]
  }

  /** The `update` of `cancelAttendance`: the pair's row becomes cancelled and stays in the
      table; there is nothing to update (the database throws) when the pair has no row. */
  function Cancel(t: AttendanceTable, key: PairKey): (r: Option<AttendanceTable>)
    ensures r.None? <==> StateOf(t, key).None?
    ensures r.Some? ==> StateOf(r.value, key) == Some(Cancelled)
    ensures r.Some? ==> r.value.Keys == t.Keys && r.value[key].createdAt == t[key].createdAt
    ensures r.Some? ==> forall k :: k in t && k != key ==> r.value[k] == t[k]
    ensures r.Some? && RowsMatchKeys(t, AttendancePair) ==> RowsMatchKeys(r.value, AttendancePair)
  {
    if key in t then Some(t[key := t[key].(status := Cancelled)]) else None
  }

  /** Confirming a stored user's attendance at a stored event keeps every row resolvable. */
  lemma AttendKeepsKeyed(users: UserTable, events: EventTable, t: AttendanceTable, key: PairKey, now: int)
    requires AttendancesKeyed(users, events, t)
    requires key.userId in UserIds(users) && key.eventId in events
    ensures AttendancesKeyed(users, events, Attend(t, key, now))
  {
  }

  /** Cancelling keeps every row resolvable. */
  lemma CancelKeepsKeyed(users: UserTable, events: EventTable, t: AttendanceTable, key: PairKey)
    requires AttendancesKeyed(users, events, t) && key in t
    ensures AttendancesKeyed(users, events, Cancel(t, key).value)
  {
  }

  /** Confirming twice gives the same table as confirming once. */
  lemma AttendIdempotent(t: AttendanceTable, key: PairKey, now1: int, now2: int)
    ensures Attend(Attend(t, key, now1), key, now2) == Attend(t, key, now1)
  {
  }

  /** After confirming, the pair has exactly one row, whether or not it had one before. */
  lemma AttendLeavesOneRow(t: AttendanceTable, key: PairKey, now: int)
    requires RowsMatchKeys(t, AttendancePair)
    ensures RowsFor(Attend(t, key, now), AttendancePair, key.userId, key.eventId) == {key}
  {
    var t' := Attend(t, key, now);
    forall k | k in RowsFor(t', AttendancePair, key.userId, key.eventId) ensures k == key {
      assert AttendancePair(t'[k]) == k;
    }
  }

  /** The state machine of a pair: absent -> confirmed -> cancelled -> confirmed, and
      cancelling an absent pair fails; no transition removes a row. */
  lemma PairTransitions(t: AttendanceTable, key: PairKey, now: int)
    ensures StateOf(t, key).None? ==> Cancel(t, key).None?
    ensures Cancel(Attend(t, key, now), key).Some?
    ensures StateOf(Cancel(Attend(t, key, now), key).value, key) == Some(Cancelled)
    ensures Cancel(Attend(t, key, now), key).value.Keys == t.Keys + {key}
    ensures StateOf(t, key) == Some(Cancelled) ==> Attend(t, key, now)[key] == t[key].(status := Confirmed)
  {
  }

  // ----- the read queries -----

  /** `findMany({ orderBy: { date: 'asc' } })` over all events. */
  ghost function EventsByDate(events: EventTable): (es: seq<Event>)
    ensures |es| == |events|
    ensures forall e :: e in es <==> e in events.Values
    ensures forall i, j :: 0 <= i < j < |es| ==> es[i].date <= es[j].date
  {
    var all := (e: Event) => true;
    var earliestFirst := (e: Event) => e.date;
    var es := FindMany(events, all, earliestFirst);
    assert KeysWhere(events, all) == events.Keys;
    forall i, j | 0 <= i < j < |es| ensures es[i].date <= es[j].date {
      assert earliestFirst(es[i]) <= earliestFirst(es[j]);
    }
    es
  }

  /** `findMany({ where: { organizerId }, orderBy: { date: 'desc' } })`. */
  ghost function OrganizedBy(events: EventTable, userId: string): (es: seq<Event>)
    ensures forall e :: e in es <==> e in events.Values && e.organizerId == userId
    ensures |es| == |set k | k in events && events[k].organizerId == userId|
    ensures forall i, j :: 0 <= i < j < |es| ==> es[i].date >= es[j].date
  {
    var mine := (e: Event) => e.organizerId == userId;
    var latestFirst := (e: Event) => -e.date;
    var es := FindMany(events, mine, latestFirst);
    assert KeysWhere(events, mine) == set k | k in events && events[k].organizerId == userId;
    forall i, j | 0 <= i < j < |es| ensures es[i].date >= es[j].date {
      assert latestFirst(es[i]) <= latestFirst(es[j]);
    }
    es
  }

  /** `eventAttendance.findMany({ where: { userId }, orderBy: { createdAt: 'desc' } })`:
      every row of the user, cancelled ones included, most recent first. */
  ghost function AttendanceHistory(attendances: AttendanceTable, userId: string): (h: seq<Attendance>)
    ensures forall a :: a in h <==> a in attendances.Values && a.userId == userId
    ensures |h| == |set k | k in attendances && attendances[k].userId == userId|
    ensures forall i, j :: 0 <= i < j < |h| ==> h[i].createdAt >= h[j].createdAt
  {
    var mine := (a: Attendance) => a.userId == userId;
    var latestFirst := (a: Attendance) => -a.createdAt;
    var h := FindMany(attendances, mine, latestFirst);
    assert KeysWhere(attendances, mine) == set k | k in attendances && attendances[k].userId == userId;
    forall i, j | 0 <= i < j < |h| ensures h[i].createdAt >= h[j].createdAt {
      assert latestFirst(h[i]) <= latestFirst(h[j]);
    }
    h
  }

  /** A cancelled RSVP still shows in the user's history, with its cancelled status. */
  lemma CancelledRowStaysInHistory(t: AttendanceTable, key: PairKey)
    requires RowsMatchKeys(t, AttendancePair) && key in t
    ensures Cancel(t, key).Some?
    ensures var row := Cancel(t, key).value[key];
      row.status == Cancelled && row in AttendanceHistory(Cancel(t, key).value, key.userId)
  {
    var t' := Cancel(t, key).value;
    assert t'[key] in t'.Values;
  }

  lemma OrganizersResolve(users: UserTable, events: EventTable)
    requires EventsKeyed(users, events)
    ensures forall e :: e in events.Values ==> e.organizerId in UserIds(users)
  {
    forall e | e in events.Values ensures e.organizerId in UserIds(users) {
      var k :| k in events && events[k] == e;
    }
  }

  lemma AttendedEventsResolve(users: UserTable, events: EventTable, attendances: AttendanceTable)
    requires AttendancesKeyed(users, events, attendances)
    ensures forall a :: a in attendances.Values ==> a.eventId in events
  {
    forall a | a in attendances.Values ensures a.eventId in events {
      var k :| k in attendances && attendances[k] == a;
    }
  }

  /** One entry of `GET /events`: the event, the summary of the stored user whose local id
      is the organizer id, and the numbers of attendance rows and reviews keyed to it. */
  ghost function ListingOf(users: UserTable, attendances: AttendanceTable, reviews: ReviewTable, e: Event): (l: Listing)
    requires e.organizerId in UserIds(users)
    ensures l.event == e
    ensures l.organizer == Summary(UserWithId(users, e.organizerId)) && l.organizer.id == e.organizerId
    ensures l.attendanceCount == |set p | p in attendances && p.eventId == e.id|
    ensures l.reviewCount == |set p | p in reviews && p.eventId == e.id|
  {
    Listing(
      e,
      Summary(UserWithId(users, e.organizerId)),
      |set p | p in attendances && p.eventId == e.id|,
      |set p | p in reviews && p.eventId == e.id|)
  }

  // ----- the handlers -----

  /** `POST /events`. */
  method CreateEvent(db: Store, body: EventBody, caller: Option<AuthUser>, freshId: string, fault: bool)
    returns (r: Reply<Event>)
    requires db.Valid()
    modifies db
    ensures db.Valid()
    ensures CallerUid(caller).None? ==> r == Fail(UNAUTHORIZED, NOT_AUTHENTICATED)
    ensures CallerUid(caller).Some? && fault ==> r == Fail(SERVER_ERROR, CREATE_FAILED)
    ensures CallerUid(caller).Some? && !fault && CallerUid(caller).value !in old(db.users) ==>
      r == Fail(NOT_FOUND, USER_NOT_FOUND)
    ensures CallerUid(caller).Some? && !fault && CallerUid(caller).value in old(db.users)
            && (body.title.None? || body.date.None? || body.location.None? || freshId in old(db.events)) ==>
      r == Fail(SERVER_ERROR, CREATE_FAILED)
    ensures r.Fail? ==> unchanged(db)
    ensures r.Ok? <==>
      && CallerUid(caller).Some? && !fault && CallerUid(caller).value in old(db.users)
      && body.title.Some? && body.date.Some? && body.location.Some? && freshId !in old(db.events)
    ensures r.Ok? ==>
      && r.status == CREATED
      && r.payload == Event(freshId, body.title.value, body.description, body.date.value,
                            body.location.value, old(db.users)[CallerUid(caller).value].id)
      && db.events == old(db.events)[freshId := r.payload]
      && db.users == old(db.users) && db.attendances == old(db.attendances) && db.reviews == old(db.reviews)
  {
    var uid := CallerUid(caller);
    if uid.None? {
      return Fail(UNAUTHORIZED, NOT_AUTHENTICATED);
    }
    if fault {
      return Fail(SERVER_ERROR, CREATE_FAILED);
    }
    if uid.value !in db.users {
      return Fail(NOT_FOUND, USER_NOT_FOUND);
    }
    var user := db.users[uid.value];
    // Missing required columns, and an id already taken, make the insert throw.
    if body.title.None? || body.date.None? || body.location.None? || freshId in db.events {
      return Fail(SERVER_ERROR, CREATE_FAILED);
    }
    var event := Event(freshId, body.title.value, body.description, body.date.value, body.location.value, user.id);
    assert user.id in UserIds(db.users);
    db.events := db.events[freshId := event];
    return Ok(CREATED, event);
  }

  /** The events of a listing, in listing order. */
  function ListedEvents(ls: seq<Listing>): (es: seq<Event>)
    ensures |es| == |ls| && forall i :: 0 <= i < |ls| ==> es[i] == ls[i].event
  {
    if ls == [] then [] else [ls[0].event] + ListedEvents(ls[1..])
  }

  /** The listing entries of a list of events, in the same order. */
  ghost function Listings(users: UserTable, attendances: AttendanceTable, reviews: ReviewTable, es: seq<Event>)
    : (ls: seq<Listing>)
    requires forall e :: e in es ==> e.organizerId in UserIds(users)
    ensures ListedEvents(ls) == es
    ensures forall l :: l in ls ==> l.event.organizerId in UserIds(users) && l == ListingOf(users, attendances, reviews, l.event)
  {
    if es == [] then []
    else
      var ls := [ListingOf(users, attendances, reviews, es[0])] + Listings(users, attendances, reviews, es[1..]);
      assert ListedEvents(ls) == [es[0]] + ListedEvents(ls[1..]);
      ls
  }

  /** `GET /events`: every event, earliest first, each with its organizer and its numbers of
      attendance rows (cancelled ones included) and reviews. */
  ghost function GetEvents(db: Store, fault: bool): (r: Reply<seq<Listing>>)
    reads db
    requires db.Valid()
    ensures fault ==> r == Fail(SERVER_ERROR, LIST_FAILED)
    ensures !fault ==> r.Ok? && r.status == OK && ListedEvents(r.payload) == EventsByDate(db.events)
    ensures r.Ok? ==> forall l :: l in r.payload ==>
      && l.event.organizerId in UserIds(db.users)
      && l.organizer == Summary(UserWithId(db.users, l.event.organizerId))
      && l.organizer.id == l.event.organizerId
      && l.attendanceCount == |set p | p in db.attendances && p.eventId == l.event.id|
      && l.reviewCount == |set p | p in db.reviews && p.eventId == l.event.id|
  {
    if fault then Fail(SERVER_ERROR, LIST_FAILED)
    else
      var es := EventsByDate(db.events);
      OrganizersResolve(db.users, db.events);
      Ok(OK, Listings(db.users, db.attendances, db.reviews, es))
  }

  /** `GET /events/:id`. */
  ghost function GetEventById(db: Store, id: string, fault: bool): (r: Reply<EventDetail>)
    reads db
    requires db.Valid()
    ensures id == "" ==> r == Fail(BAD_REQUEST, ID_REQUIRED)
    ensures id != "" && fault ==> r == Fail(SERVER_ERROR, GET_FAILED)
    ensures id != "" && !fault && id !in db.events ==> r == Fail(NOT_FOUND, EVENT_NOT_FOUND)
    ensures r.Ok? <==> id != "" && !fault && id in db.events
    ensures r.Ok? ==>
      && r.status == OK && r.payload.event == db.events[id]
      && db.events[id].organizerId in UserIds(db.users)
      && r.payload.organizer == Summary(UserWithId(db.users, db.events[id].organizerId))
      && r.payload.organizer.id == db.events[id].organizerId
      && r.payload.attendances == (set a | a in db.attendances.Values && a.eventId == id)
      && r.payload.reviews == (set v | v in db.reviews.Values && v.eventId == id)
  {
    if id == "" then Fail(BAD_REQUEST, ID_REQUIRED)
    else if fault then Fail(SERVER_ERROR, GET_FAILED)
    else if id !in db.events then Fail(NOT_FOUND, EVENT_NOT_FOUND)
    else
      var e := db.events[id];
      Ok(OK, EventDetail(
        e,
        Summary(UserWithId(db.users, e.organizerId)),
        set a | a in db.attendances.Values && a.eventId == id,
        set v | v in db.reviews.Values && v.eventId == id))
  }

  /** `POST /events/:id/attend`. */
  method AttendEvent(db: Store, id: string, caller: Option<AuthUser>, now: int, fault: bool)
    returns (r: Reply<Attendance>)
    requires db.Valid()
    modifies db
    ensures db.Valid()
    ensures id == "" ==> r == Fail(BAD_REQUEST, ID_REQUIRED)
    ensures id != "" && CallerUid(caller).None? ==> r == Fail(UNAUTHORIZED, NOT_AUTHENTICATED)
    ensures id != "" && CallerUid(caller).Some? && fault ==> r == Fail(SERVER_ERROR, ATTEND_FAILED)
    ensures id != "" && CallerUid(caller).Some? && !fault && CallerUid(caller).value !in old(db.users) ==>
      r == Fail(NOT_FOUND, USER_NOT_FOUND)
    ensures id != "" && CallerUid(caller).Some? && !fault && CallerUid(caller).value in old(db.users)
            && id !in old(db.events) ==>
      r == Fail(SERVER_ERROR, ATTEND_FAILED)
    ensures r.Fail? ==> unchanged(db)
    ensures r.Ok? <==>
      id != "" && CallerUid(caller).Some? && !fault && CallerUid(caller).value in old(db.users) && id in old(db.events)
    ensures r.Ok? ==>
      var key := PairKey(old(db.users)[CallerUid(caller).value].id, id);
      && r.status == OK
      && db.attendances == Attend(old(db.attendances), key, now)
      && r.payload == db.attendances[key]
      && db.users == old(db.users) && db.events == old(db.events) && db.reviews == old(db.reviews)
  {
    if id == "" {
      return Fail(BAD_REQUEST, ID_REQUIRED);
    }
    var uid := CallerUid(caller);
    if uid.None? {
      return Fail(UNAUTHORIZED, NOT_AUTHENTICATED);
    }
    if fault {
      return Fail(SERVER_ERROR, ATTEND_FAILED);
    }
    if uid.value !in db.users {
      return Fail(NOT_FOUND, USER_NOT_FOUND);
    }
    var user := db.users[uid.value];
    // Creating a row for an unknown event breaks the foreign key and throws.
    if id !in db.events {
      return Fail(SERVER_ERROR, ATTEND_FAILED);
    }
    var key := PairKey(user.id, id);
    assert user.id in UserIds(db.users);
    AttendKeepsKeyed(db.users, db.events, db.attendances, key, now);
    db.attendances := Attend(db.attendances, key, now);
    return Ok(OK, db.attendances[key]);
  }

  /** `POST /events/:id/cancel`. */
  method CancelAttendance(db: Store, id: string, caller: Option<AuthUser>, fault: bool)
    returns (r: Reply<Attendance>)
    requires db.Valid()
    modifies db
    ensures db.Valid()
    ensures id == "" ==> r == Fail(BAD_REQUEST, ID_REQUIRED)
    ensures id != "" && CallerUid(caller).None? ==> r == Fail(UNAUTHORIZED, NOT_AUTHENTICATED)
    ensures id != "" && CallerUid(caller).Some? && fault ==> r == Fail(SERVER_ERROR, CANCEL_FAILED)
    ensures id != "" && CallerUid(caller).Some? && !fault && CallerUid(caller).value !in old(db.users) ==>
      r == Fail(NOT_FOUND, USER_NOT_FOUND)
    ensures r.Fail? ==> unchanged(db)
    ensures id != "" && CallerUid(caller).Some? && !fault && CallerUid(caller).value in old(db.users) ==>
      var key := PairKey(old(db.users)[CallerUid(caller).value].id, id);
      && (key !in old(db.attendances) ==> r == Fail(SERVER_ERROR, CANCEL_FAILED))
      && (key in old(db.attendances) ==>
            && r.Ok? && r.status == OK
            && db.attendances == Cancel(old(db.attendances), key).value
            && r.payload == db.attendances[key])
    ensures r.Ok? ==> db.users == old(db.users) && db.events == old(db.events) && db.reviews == old(db.reviews)
  {
    if id == "" {
      return Fail(BAD_REQUEST, ID_REQUIRED);
    }
    var uid := CallerUid(caller);
    if uid.None? {
      return Fail(UNAUTHORIZED, NOT_AUTHENTICATED);
    }
    if fault {
      return Fail(SERVER_ERROR, CANCEL_FAILED);
    }
    if uid.value !in db.users {
      return Fail(NOT_FOUND, USER_NOT_FOUND);
    }
    var user := db.users[uid.value];
    var key := PairKey(user.id, id);
    var updated := Cancel(db.attendances, key);
    if updated.None? {
      return Fail(SERVER_ERROR, CANCEL_FAILED);
    }
    CancelKeepsKeyed(db.users, db.events, db.attendances, key);
    db.attendances := updated.value;
    return Ok(OK, db.attendances[key]);
  }

  function AttendancesOf(s: seq<AttendedEvent>): (h: seq<Attendance>)
    ensures |h| == |s| && forall i :: 0 <= i < |s| ==> h[i] == s[i].attendance
  {
    if s == [] then [] else [s[0].attendance] + AttendancesOf(s[1..])
  }

  /** `include: { event: true }` on a list of attendance rows: each row paired with its
      event, in the same order. */
  function WithEvents(h: seq<Attendance>, events: EventTable): (s: seq<AttendedEvent>)
    requires forall a :: a in h ==> a.eventId in events
    ensures AttendancesOf(s) == h
    ensures forall x :: x in s ==> x.attendance.eventId in events && x.event == events[x.attendance.eventId]
  {
    if h == [] then []
    else
      var s := [AttendedEvent(h[0], events[h[0].eventId])] + WithEvents(h[1..], events);
      assert AttendancesOf(s) == [h[0]] + AttendancesOf(s[1..]);
      s
  }

  /** `GET /events/my-events`: the events the caller organizes, latest date first, and every
      attendance row of the caller with its event, most recently created first. */
  ghost function GetUserEvents(db: Store, caller: Option<AuthUser>, fault: bool): (r: Reply<UserEvents>)
    reads db
    requires db.Valid()
    ensures CallerUid(caller).None? ==> r == Fail(UNAUTHORIZED, NOT_AUTHENTICATED)
    ensures CallerUid(caller).Some? && fault ==> r == Fail(SERVER_ERROR, HISTORY_FAILED)
    ensures CallerUid(caller).Some? && !fault && CallerUid(caller).value !in db.users ==>
      r == Fail(NOT_FOUND, USER_NOT_FOUND)
    ensures r.Ok? <==> CallerUid(caller).Some? && !fault && CallerUid(caller).value in db.users
    ensures r.Ok? ==>
      var me := db.users[CallerUid(caller).value].id;
      && r.status == OK
      && r.payload.organized == OrganizedBy(db.events, me)
      && AttendancesOf(r.payload.attended) == AttendanceHistory(db.attendances, me)
    ensures r.Ok? ==> forall x :: x in r.payload.attended ==>
      x.attendance.eventId in db.events && x.event == db.events[x.attendance.eventId]
  {
    var uid := CallerUid(caller);
    if uid.None? then Fail(UNAUTHORIZED, NOT_AUTHENTICATED)
    else if fault then Fail(SERVER_ERROR, HISTORY_FAILED)
    else if uid.value !in db.users then Fail(NOT_FOUND, USER_NOT_FOUND)
    else
      var me := db.users[uid.value].id;
      var h := AttendanceHistory(db.attendances, me);
      AttendedEventsResolve(db.users, db.events, db.attendances);
      Ok(OK, UserEvents(OrganizedBy(db.events, me), WithEvents(h, db.events)))
  }
}
