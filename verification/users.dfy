/** The user controller: `syncUser` records the authenticated caller in the user table,
    creating the row on first contact and refreshing its email and display name after. */
module UserController {
  import opened Common
  import opened Tables
  import opened Auth

  const NOT_AUTHENTICATED: string := "Usuario no autenticado"
  const SYNC_FAILED: string := "Error syncing user"

  /** The body `{ success: true, user: { id, email, displayName } }`. */
  datatype SyncReply = SyncReply(success: bool, user: UserSummary)

  /** `email || ''`: an absent (or empty) email is stored as the empty string. */
  function StoredEmail(email: Option<string>): (r: string)
    ensures r == "" <==> email.None? || email.value == ""
    ensures email.Some? ==> r == email.value
  {
    if email.Some? then email.value else ""
  }

  /** The `upsert` keyed by `firebaseUid`: both branches write the same email and display
      name; only the create branch draws a new local id. `None` is a write the database
      refuses: a new row whose id is already taken. A successful write keeps the table
      keyed and every local id in use. */
  function Reconcile(users: UserTable, uid: string, email: Option<string>, displayName: Option<string>,
                     freshId: string): (r: Option<UserTable>)
    requires UsersKeyed(users)
    ensures r.None? <==> uid !in users && freshId in UserIds(users)
    ensures r.Some? ==> r.value.Keys == users.Keys + {uid}
    ensures r.Some? ==> forall k :: k in users && k != uid ==> r.value[k] == users[k]
    ensures r.Some? ==>
      && r.value[uid].firebaseUid == uid
      && r.value[uid].email == (if email.Some? then email.value else "")
      && r.value[uid].displayName == displayName
    ensures r.Some? && uid in users ==> r.value[uid].id == users[uid].id
    ensures r.Some? && uid !in users ==> r.value[uid].id == freshId
    ensures r.Some? ==> UsersKeyed(r.value) && UserIds(users) <= UserIds(r.value)
  {
    var stored := StoredEmail(email);
    if uid in users then
      var row := users[uid].(email := stored, displayName := displayName);
      assert forall k :: k in users && k != uid ==> users[k].id != row.id;
      WriteKeepsKeys(users, uid, row);
      Some(users[uid := row])
    else if freshId in UserIds(users) then None
    else
      var row := User(freshId, uid, stored, displayName);
      assert forall k :: k in users ==> users[k].id != freshId by {
        forall k | k in users ensures users[k].id != freshId {
          assert users[k].id in UserIds(users);
        }
      }
      WriteKeepsKeys(users, uid, row);
      Some(users[uid := row])
  }

  /** Writing a row under its own uid, with an id no other row holds, keeps the table
      keyed and every id in use. */
  lemma WriteKeepsKeys(users: UserTable, uid: string, row: User)
    requires UsersKeyed(users) && row.firebaseUid == uid
    requires uid in users ==> row.id == users[uid].id
    requires forall k :: k in users && k != uid ==> users[k].id != row.id
    ensures UsersKeyed(users[uid := row])
    ensures UserIds(users) <= UserIds(users[uid := row])
  {
    IdsKept(users, users[uid := row], uid);
  }

  /** Rewriting one row without touching its id keeps every id in use. */
  lemma IdsKept(users: UserTable, after: UserTable, uid: string)
    requires users.Keys <= after.Keys
    requires forall k :: k in users && k != uid ==> after[k] == users[k]
    requires uid in users ==> after[uid].id == users[uid].id
    ensures UserIds(users) <= UserIds(after)
  {
    forall id | id in UserIds(users) ensures id in UserIds(after) {
      var k :| k in users && users[k].id == id;
      assert after[k].id == id;
    }
  }

  /** Syncing again with the same identity changes nothing, whatever id would be drawn. */
  lemma {:induction false} SyncIdempotent(users: UserTable, uid: string, email: Option<string>,
                                          displayName: Option<string>, freshId: string, laterId: string)
    requires UsersKeyed(users)
    requires Reconcile(users, uid, email, displayName, freshId).Some?
    ensures
      var once := Reconcile(users, uid, email, displayName, freshId).value;
      Reconcile(once, uid, email, displayName, laterId) == Some(once)
  {
    var once := Reconcile(users, uid, email, displayName, freshId).value;
    assert once[uid := once[uid].(email := StoredEmail(email), displayName := displayName)] == once;
  }

  /** After a sync there is exactly one row for the caller's uid, whose stored email and
      display name come from the token alone, not from whatever row was there before. */
  lemma OneRowPerIdentity(users: UserTable, uid: string, email: Option<string>, displayName: Option<string>,
                          freshId: string, others: UserTable, otherId: string)
    requires UsersKeyed(users)
    requires Reconcile(users, uid, email, displayName, freshId).Some?
    requires UsersKeyed(others)
    requires Reconcile(others, uid, email, displayName, otherId).Some?
    ensures
      var after := Reconcile(users, uid, email, displayName, freshId).value;
      (set k | k in after && after[k].firebaseUid == uid) == {uid}
    ensures
      var a := Reconcile(users, uid, email, displayName, freshId).value[uid];
      var b := Reconcile(others, uid, email, displayName, otherId).value[uid];
      a.email == b.email && a.displayName == b.displayName
  {
  }

  /** `POST /users/sync`. */
  method SyncUser(db: Store, caller: Option<AuthUser>, freshId: string, fault: bool)
    returns (r: Reply<SyncReply>)
    requires db.Valid()
    modifies db
    ensures db.Valid()
    ensures CallerUid(caller).None? ==> r == Fail(UNAUTHORIZED, NOT_AUTHENTICATED)
    ensures CallerUid(caller).Some? && fault ==> r == Fail(SERVER_ERROR, SYNC_FAILED)
    ensures r.Fail? ==> unchanged(db)
    ensures CallerUid(caller).Some? && !fault ==>
      var u := caller.value;
      var written := Reconcile(old(db.users), u.uid, u.email, u.displayName, freshId);
      && (written.None? ==> r == Fail(SERVER_ERROR, SYNC_FAILED))
      && (written.Some? ==>
            && db.users == written.value
            && r == Ok(OK, SyncReply(true, Summary(db.users[u.uid]))))
    ensures r.Ok? ==>
      db.events == old(db.events) && db.attendances == old(db.attendances) && db.reviews == old(db.reviews)
  {
    var uid := CallerUid(caller);
    if uid.None? {
      return Fail(UNAUTHORIZED, NOT_AUTHENTICATED);
    }
    if fault {
      return Fail(SERVER_ERROR, SYNC_FAILED);
    }
    var u := caller.value;
    var written := Reconcile(db.users, u.uid, u.email, u.displayName, freshId);
    if written.None? {
      return Fail(SERVER_ERROR, SYNC_FAILED);
    }
    db.users := written.value;
    return Ok(OK, SyncReply(true, Summary(db.users[u.uid])));
  }

  /** The reply describes the row now stored for the caller: its id, email and display
      name, the latter two as the token gave them. */
  lemma SyncReplyDescribesRow(users: UserTable, u: AuthUser, freshId: string)
    requires UsersKeyed(users)
    requires Reconcile(users, u.uid, u.email, u.displayName, freshId).Some?
    ensures
      var row := Reconcile(users, u.uid, u.email, u.displayName, freshId).value[u.uid];
      var s := Summary(row);
      && s.email == (if u.email.Some? then u.email.value else "")
      && s.displayName == u.displayName
      && s.id == (if u.uid in users then users[u.uid].id else freshId)
  {
  }
}
