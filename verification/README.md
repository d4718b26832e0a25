# Community events: a Dafny model of the request handlers

This project models the core of the "eventos-comunitarios" backend and one form of its
mobile client:

- **Authentication middleware.** `verifyFirebaseToken` checks that the `Authorization`
  header starts with `Bearer `. It takes the token with `split('Bearer ')[1]` and rejects
  an empty token. It then asks the identity provider to verify the token, and on success
  it fills in `req.user` and calls `next`. Module `Auth`.
- **Event controller.** It creates events, lists them, shows one event, confirms and
  cancels attendance (RSVP), and returns a user's organised and attended events. Module
  `EventController`.
- **Review controller.** It writes one review per (user, event) after a bounds check on
  the rating. It lists an event's reviews together with their average and count. Module
  `ReviewController`.
- **User controller.** `syncUser` upserts the caller's row, keyed by Firebase uid. Module
  `UserController`.
- **Create/edit event form.** `handleSubmit` checks the trimmed title and location. It
  then builds the payload, sends a POST or a PUT, shows an alert and toggles `loading`.
  Module `CreateEventScreen`.

Supporting modules:

- `Common` holds `Option`, the reply type `Reply` (a status with a payload or an error
  message) and the HTTP status codes.
- `JsString` models the JavaScript string built-ins the core relies on: `startsWith`,
  `split`/`indexOf` and `trim`.
- `Ordering` models what a `findMany` query does. It selects the matching rows of a table
  and sorts them by the `orderBy` key.
- `Tables` holds the rows and the `Store` class. `Store` has one map field per table and
  an invariant `Valid`. Rows agree with their keys, local ids are unique and foreign keys
  resolve; these come from the upsert keys and the relations the queries use. Stored
  ratings lie in [1, 5]; that comes from the review handler's bounds check, the only
  way a rating is written.

Handlers that write are methods on a `Store` with `modifies db`. They keep `Valid`, they
state the new tables in terms of pure functions (`Attend`, `Cancel`, `SubmitReview`,
`Reconcile`), and they leave the store unchanged on every failure. Read-only handlers are
functions that read the store.

Each handler takes the authenticated caller (`req.user`) as a parameter. Its ensures list
the guard outcomes in the order the code checks them.

Each handler also takes a flag `fault`. It stands for the first database call throwing,
which the handler's `catch` turns into a 500. Several write failures are deterministic
and are modelled as 500 replies:

- a foreign key that does not resolve;
- a fresh id that is already in use;
- a row created without one of its required columns, and a review upsert without a rating;
- an update of a row that does not exist.

## Model

| member | source | states |
|---|---|---|
| JsString.IndexOf | backend/src/middleware/auth.middleware.ts:29 | `indexOf`: the first occurrence of the pattern, or none exactly when the pattern does not occur |
| JsString.StartsWith | backend/src/middleware/auth.middleware.ts:25 | `startsWith` holds exactly when `indexOf` finds the prefix at index 0 |
| JsString.Split | backend/src/middleware/auth.middleware.ts:29 | `split` always yields at least one piece |
| JsString.SplitPiecesAvoidSeparator | backend/src/middleware/auth.middleware.ts:29 | no piece produced by `split` contains the separator |
| JsString.JoinSplit | backend/src/middleware/auth.middleware.ts:29 | joining the pieces of `split` with the separator gives back the original string |
| JsString.SplitWithoutSeparator | backend/src/middleware/auth.middleware.ts:29 | a string without the separator splits into itself alone |
| JsString.SplitLeadingSeparator | backend/src/middleware/auth.middleware.ts:29 | a string that starts with the separator splits into `""` followed by the pieces of the rest |
| JsString.TrimStartCuts | frontend/src/screens/CreateEventScreen.tsx:39 | the result is a suffix of the input, only whitespace was removed, and it does not start with whitespace |
| JsString.TrimEndCuts | frontend/src/screens/CreateEventScreen.tsx:39 | the result is a prefix of the input, only whitespace was removed, and it does not end with whitespace |
| JsString.Trim | frontend/src/screens/CreateEventScreen.tsx:39 | `trim` never lengthens its input, and its result neither starts nor ends with whitespace |
| JsString.TrimIsSlice | frontend/src/screens/CreateEventScreen.tsx:39 | `trim` returns a slice of its input whose cut-off ends are all whitespace |
| JsString.TrimEmptyIffAllSpace | frontend/src/screens/CreateEventScreen.tsx:39 | `trim` gives `""` exactly when every character is whitespace |
| JsString.TrimIdempotent | frontend/src/screens/CreateEventScreen.tsx:51-54 | trimming twice is trimming once |
| Ordering.SortBy | backend/src/controllers/event.controller.ts:46 | `orderBy` output is sorted by the key and is a permutation of its input |
| Ordering.Select | backend/src/controllers/event.controller.ts:176-179 | a `where` scan returns exactly the rows that match, one per key |
| Ordering.FindMany | backend/src/controllers/event.controller.ts:176-185 | `findMany` returns exactly the matching rows, one per key, sorted by the order key |
| Tables.UserWithId | backend/src/controllers/event.controller.ts:43 | an organizer id that is in use resolves to a stored user with that id |
| Tables.Store.constructor | backend/src/controllers/event.controller.ts:2 | an empty store meets the store invariant, so it is one starting state every handler accepts |
| Auth.ExtractToken | backend/src/middleware/auth.middleware.ts:29 | the token is the text after the leading `Bearer `, up to the next `Bearer ` or the end, and it contains no `Bearer ` |
| Auth.CallerUid | backend/src/controllers/event.controller.ts:8-13 | the caller's uid is returned exactly when there is a caller with a non-empty uid, and it is `req.user.uid` itself |
| Auth.Authenticate | backend/src/middleware/auth.middleware.ts:23-47 | a missing or unprefixed header gives "No token provided"; "Token malformed" exactly when the token is empty; "Invalid or expired token" when the verifier throws on a non-empty token; admission exactly when the verifier accepts the token; the user is built from the token's uid, email and name |
| Auth.BearerRoundTrip | backend/src/middleware/auth.middleware.ts:25-29 | for `"Bearer " + t`, where `t` holds no `Bearer `, the extracted token is `t` |
| Auth.VerifierSeesToken | backend/src/middleware/auth.middleware.ts:29-41 | the verifier is asked about exactly `t`, and its answer decides the verdict |
| Auth.PrefixAloneIsMalformed | backend/src/middleware/auth.middleware.ts:31-33 | the header `"Bearer "` is rejected as malformed |
| Auth.DoubledPrefixIsMalformed | backend/src/middleware/auth.middleware.ts:29-33 | `"Bearer Bearer …"` yields an empty token and is rejected as malformed |
| Auth.LowerCasePrefixIsRejected | backend/src/middleware/auth.middleware.ts:25-27 | the prefix check is case-sensitive |
| Auth.Exchange.constructor | backend/src/middleware/auth.middleware.ts:17-21 | a fresh request has no user, no response and no call to `next` yet |
| Auth.VerifyFirebaseToken | backend/src/middleware/auth.middleware.ts:17-48 | on admission `req.user` is set and `next` is called exactly once; on denial the reply is 401 with the verdict's message, `req.user` is untouched and `next` is not called |
| EventController.Attend | backend/src/controllers/event.controller.ts:113-117 | the pair becomes confirmed; an existing row keeps its creation time; no other row changes |
| EventController.Cancel | backend/src/controllers/event.controller.ts:148-151 | the pair becomes cancelled and keeps its row; the update fails exactly when the pair has no row |
| EventController.AttendKeepsKeyed | backend/src/controllers/event.controller.ts:113-117 | confirming a stored user's attendance at a stored event keeps every attendance row resolvable |
| EventController.CancelKeepsKeyed | backend/src/controllers/event.controller.ts:148-151 | cancelling keeps every attendance row resolvable |
| EventController.AttendIdempotent | backend/src/controllers/event.controller.ts:113-117 | confirming twice leaves the same table as confirming once |
| EventController.AttendLeavesOneRow | backend/src/controllers/event.controller.ts:113-117 | after confirming there is exactly one row for the (user, event) pair |
| EventController.PairTransitions | backend/src/controllers/event.controller.ts:113-151 | absent → confirmed → cancelled → confirmed; cancelling an absent pair fails; no row is ever removed |
| EventController.EventsByDate | backend/src/controllers/event.controller.ts:41-47 | every event exactly once, earliest date first |
| EventController.OrganizedBy | backend/src/controllers/event.controller.ts:176-179 | exactly the caller's organised events, latest date first |
| EventController.AttendanceHistory | backend/src/controllers/event.controller.ts:181-185 | every attendance row of the caller, cancelled ones included, most recently created first |
| EventController.CancelledRowStaysInHistory | backend/src/controllers/event.controller.ts:148-185 | a cancelled RSVP still appears in the history, with status cancelled |
| EventController.OrganizersResolve | backend/src/controllers/event.controller.ts:43 | every event's organizer is a stored user |
| EventController.AttendedEventsResolve | backend/src/controllers/event.controller.ts:183 | every attendance row's event exists |
| EventController.CreateEvent | backend/src/controllers/event.controller.ts:5-36 | 401, then 500 on a fault, then 404; a missing title, date or location, or a taken id, gives 500; otherwise 201 with one new event whose organizer is the caller and whose description passes through; failures write nothing |
| EventController.ListedEvents | backend/src/controllers/event.controller.ts:49 | the events of the listing, in listing order |
| EventController.ListingOf | backend/src/controllers/event.controller.ts:41-47 | one entry of the list: the event, the summary of the stored user whose local id is the organizer id, and its numbers of attendance rows and reviews |
| EventController.Listings | backend/src/controllers/event.controller.ts:41-47 | one entry per event, in the order of the events, each built by `ListingOf` |
| EventController.GetEvents | backend/src/controllers/event.controller.ts:39-54 | every event, ordered by date, each with the id, display name and email of its stored organizer, and its counts of attendance rows and reviews |
| EventController.GetEventById | backend/src/controllers/event.controller.ts:57-89 | 400 for a missing id, 404 for an unknown one; otherwise the event with the id, display name and email of its stored organizer, and all its attendance rows and reviews |
| EventController.AttendEvent | backend/src/controllers/event.controller.ts:92-124 | 400, 401, 500 on a fault, then 404; an unknown event gives 500; otherwise the attendance table becomes `Attend(...)` and the reply is the confirmed row; failures write nothing |
| EventController.CancelAttendance | backend/src/controllers/event.controller.ts:127-158 | same guard order; the table becomes `Cancel(...)` and the reply is the cancelled row; a pair without a row gives 500 and no write |
| EventController.AttendancesOf | backend/src/controllers/event.controller.ts:181-185 | the attendance rows of an `attended` list, in order |
| EventController.WithEvents | backend/src/controllers/event.controller.ts:181-185 | each attendance row is paired with its own event, in the same order, and nothing is added or dropped |
| EventController.GetUserEvents | backend/src/controllers/event.controller.ts:161-192 | 401, 500 on a fault, then 404; otherwise `organized` is `OrganizedBy` and `attended` is the caller's whole history, each row paired with its event |
| ReviewController.RatingBoundsOnly | backend/src/controllers/review.controller.ts:21-24 | the check accepts exactly ratings in [1, 5], fractional ones such as 2.5 included; an absent rating passes the check |
| ReviewController.RatingRejected | backend/src/controllers/review.controller.ts:21 | an absent rating is never rejected; a present one is rejected exactly when it lies outside [1, 5] |
| ReviewController.SubmitReview | backend/src/controllers/review.controller.ts:32-36 | the pair's review takes the new rating and comment, on update and on create alike; a submission without a rating fails whether or not the row exists; creation time is kept; no other review changes |
| ReviewController.SubmitKeepsKeyed | backend/src/controllers/review.controller.ts:21-36 | a submission that passed the bounds check keeps every review resolvable and every stored rating in [1, 5] |
| ReviewController.ResubmitReplaces | backend/src/controllers/review.controller.ts:32-36 | submitting twice leaves one review for the pair, holding the latest rating and comment; other reviews are unchanged |
| ReviewController.ReviewsOf | backend/src/controllers/review.controller.ts:55-59 | exactly the event's reviews, newest first |
| ReviewController.Aggregate | backend/src/controllers/review.controller.ts:61-72 | `count` is the number of the event's reviews; the average is 0 when there are none |
| ReviewController.TotalInsert | backend/src/controllers/review.controller.ts:55-58 | inserting a review into a sorted list adds its rating to the total |
| ReviewController.TotalSorted | backend/src/controllers/review.controller.ts:55-63 | putting the reviews in `orderBy` order does not change their rating total |
| ReviewController.StatsDescribeListing | backend/src/controllers/review.controller.ts:55-74 | the separately computed count and average are the length and the mean of the listed reviews |
| ReviewController.TotalRating | backend/src/controllers/review.controller.ts:61-63 | with every rating in [1, 5], the sum of n ratings lies between n and 5n |
| ReviewController.Mean | backend/src/controllers/review.controller.ts:61-71 | 0 for no reviews; otherwise the value that, taken once per review, adds up to the rating total |
| ReviewController.MeanBounds | backend/src/controllers/review.controller.ts:63-71 | a non-empty average of ratings in [1, 5] lies in [1, 5] |
| ReviewController.QuotientBounds | backend/src/controllers/review.controller.ts:71 | n ≤ t ≤ 5n gives 1 ≤ t/n ≤ 5 |
| ReviewController.QuotientAtMost | backend/src/controllers/review.controller.ts:71 | t ≤ c·n gives t/n ≤ c |
| ReviewController.QuotientAtLeast | backend/src/controllers/review.controller.ts:71 | c·n ≤ t gives c ≤ t/n |
| ReviewController.MeanExample | backend/src/controllers/review.controller.ts:71 | ratings 5, 3 and 4 average to 4 |
| ReviewController.StoredRatingsInRange | backend/src/controllers/review.controller.ts:21-24 | every stored rating lies in [1, 5] |
| ReviewController.CreateReview | backend/src/controllers/review.controller.ts:5-43 | 400 for a missing id, 401, 400 for a rating out of range, 500 on a fault, 404; an unknown event gives 500; a submission without a rating gives 500; otherwise 201 and the table becomes `SubmitReview(...)`; failures write nothing |
| ReviewController.GetEventReviews | backend/src/controllers/review.controller.ts:46-79 | 400 for a missing id; otherwise the reviews newest first, with `count` their number and `average` their mean, which lies in [1, 5] when there are reviews |
| UserController.Reconcile | backend/src/controllers/user.controller.ts:18-29 | after the upsert, the uid's row holds `email` (or `""`) and `displayName`; an existing row keeps its id and a new row gets the fresh id; no other row changes; the write fails exactly when a new row's fresh id is taken; the table stays keyed |
| UserController.StoredEmail | backend/src/controllers/user.controller.ts:21-26 | `email || ''`: the empty string exactly when the email is absent or empty, otherwise the email itself |
| UserController.IdsKept | backend/src/controllers/user.controller.ts:18-29 | rewriting one row without changing its id keeps every id in use |
| UserController.WriteKeepsKeys | backend/src/controllers/user.controller.ts:18-29 | writing a row under its own uid, with an id no other row holds, keeps uids and ids unique and every id in use |
| UserController.SyncIdempotent | backend/src/controllers/user.controller.ts:19-28 | a second sync with the same identity changes nothing |
| UserController.OneRowPerIdentity | backend/src/controllers/user.controller.ts:18-29 | after a sync exactly one row has the caller's uid, and its email and display name do not depend on the prior row |
| UserController.SyncUser | backend/src/controllers/user.controller.ts:6-43 | 401 for a missing or empty uid, 500 on a fault or a refused write, otherwise 200; the user table becomes `Reconcile(...)`; the reply is the stored row's id, email and display name |
| UserController.SyncReplyDescribesRow | backend/src/controllers/user.controller.ts:31-38 | the reply carries the caller's existing id (or the fresh one), `email` or `""`, and the token's display name |
| CreateEventScreen.Validate | frontend/src/screens/CreateEventScreen.tsx:39-46 | "El título es requerido" exactly when the trimmed title is empty; otherwise "La ubicación es requerida" exactly when the trimmed location is empty; valid when neither is |
| CreateEventScreen.BlankFieldsRejected | frontend/src/screens/CreateEventScreen.tsx:39-46 | validation fails on the title exactly when it is empty or all whitespace, then on the location likewise |
| CreateEventScreen.TrimmedOrNull | frontend/src/screens/CreateEventScreen.tsx:52 | a blank description becomes null; otherwise the trimmed, non-empty text |
| CreateEventScreen.BuildPayload | frontend/src/screens/CreateEventScreen.tsx:50-55 | the title and location are the trimmed inputs and the description is the trimmed text or null; so every text is already trimmed, a blank input gives an empty title or location and a null description, and after validation the title and location are non-empty; the date passes through |
| CreateEventScreen.PayloadStable | frontend/src/screens/CreateEventScreen.tsx:50-55 | building the payload again from its own fields gives the same payload |
| CreateEventScreen.RequestFor | frontend/src/screens/CreateEventScreen.tsx:57-69 | edit mode sends PUT to `/events/` followed by the id; otherwise POST to `/events`; the body is the payload |
| CreateEventScreen.FailureMessage | frontend/src/screens/CreateEventScreen.tsx:72 | the server's non-empty `error` if there is one, otherwise "No se pudo guardar el evento"; never empty |
| CreateEventScreen.OutcomeAlert | frontend/src/screens/CreateEventScreen.tsx:60-73 | success shows "¡Éxito!" with the updated or created message; failure shows "Error" with the failure message |
| CreateEventScreen.Form.constructor | frontend/src/screens/CreateEventScreen.tsx:21-27 | the form starts from the given inputs, not loading, with nothing sent and no alert |
| CreateEventScreen.Form.HandleSubmit | frontend/src/screens/CreateEventScreen.tsx:37-77 | on invalid input, one error alert and no request, and `loading` is not touched; otherwise exactly one request for the payload is sent, `loading` goes true then false, and one alert reports the outcome |

## Left out

- The database engine is not modelled: no Prisma client, no schema file. Tables are maps.
  The schema's uniqueness and foreign-key rules become `Tables.Store.Valid`. The way they
  fail is folded into the 500 replies listed above.
- Id generation, clocks and `new Date()` are not modelled. Fresh ids (`freshId`) and
  creation times (`now`) are parameters. Dates are opaque integers. An event date that
  `new Date(date)` cannot read is an absent date (a 500 on create).
- Exceptions other than the deterministic ones above are not modelled. They are
  represented only by `fault`, which means the first database call of a handler throws.
  A later call failing on its own (for example the second query of `getEventReviews`) is
  not modelled separately.
- Nested `include`/`select` user summaries inside attendance and review lists are left
  out. Only the event's organizer summary is modelled.
- Rows with equal sort keys are left in no particular order. The database's tie-breaking
  is not modelled.
- Floating point is not modelled. Ratings and the average are exact reals, so rounding of
  the average is not captured.
- A rating sent as JSON `null` or as a non-number is not modelled. The body's rating is
  either a number or absent.
- The identity provider's cryptography is not modelled. It is the parameter `verify`,
  which returns claims or throws.
- Logging (`console.error`) and the JSON `success: true` flags of the backend replies are
  not modelled. The one exception is `UserController.SyncReply`, which does carry the
  flag.
- The client sends `PUT /events/{id}` in edit mode, but the event router
  (backend/src/routes/event.route.ts:15-24) has no PUT route. The model records the
  request the client sends. No update handler exists to model.
- `syncUser` looks users up only by Firebase uid; it has no email fallback.
- Routers, server bootstrap, `api.ts` (base URL and token header), `seed.ts` and the
  other screens are not part of this model.
- The form's date and time pickers and navigation (`goBack` on the alert button) are not
  modelled.
- CreateEventScreen.Form.HandleSubmit: the model records `loading` as the sequence of its
  updates. It does not model React re-rendering or the asynchronous gap between the two
  updates.
- CreateEventScreen.Form: the form's field values are constants of the object. They are
  the values the submit handler closes over at the moment it runs. Editing the fields
  between submissions is not modelled.
- ReviewController.SubmitReview: the schema file is not part of this model. The model
  takes the rating to be a required column. It also takes the database to check the
  `create` argument of every upsert before running it, so a submission without a rating
  is refused even when the row exists. Both are assumptions about the database, not
  something the handler's code shows. For the same reason the type
  of the rating column is not known. The model stores any number that passed the bounds
  check, 2.5 included. If the column holds integers, the database would refuse a
  fractional rating and the handler would answer 500; the model does not capture that.
- UserController.Reconcile: the schema file is not part of this model. Only the uid key
  and the local id are taken as unique. If the schema also makes emails unique, an upsert
  that writes an email another row holds would throw and answer 500; the model does not
  capture that.
