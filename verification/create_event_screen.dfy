/** The submit handler of the create/edit event form: it validates the trimmed inputs,
    builds the JSON payload, sends it as a POST (new event) or a PUT (edit), and reports
    the outcome in an alert, with the `loading` flag raised around the request. The HTTP
    client is a parameter `api` that either resolves or rejects with an error body. */
module CreateEventScreen {
  import opened Common
  import opened JsString

  const ERROR_TITLE: string := "Error"
  const SUCCESS_TITLE: string := "¡Éxito!"
  const TITLE_REQUIRED: string := "El título es requerido"
  const LOCATION_REQUIRED: string := "La ubicación es requerida"
  const UPDATED: string := "Evento actualizado correctamente"
  const CREATED_OK: string := "Evento creado correctamente"
  const SAVE_FAILED: string := "No se pudo guardar el evento"
  const EVENTS_PATH: string := "/events"

  /** `eventData`; `date` is the form's instant, sent as its ISO text. */
  datatype Payload = Payload(title: string, description: Option<string>, date: int, location: string)

  datatype Verb = Post | Put

  datatype Request = Request(verb: Verb, path: string, body: Payload)

  /** How the request settles: it resolves, or it rejects, possibly with a response whose
      body carries an `error` string. */
  datatype Outcome = Resolved | Rejected(serverError: Option<string>)

  datatype Alert = Alert(title: string, message: string)

  /** The two checks, title first: the message of the first that fails, or `None`. */
  function Validate(title: string, location: string): (r: Option<string>)
    ensures r == Some(TITLE_REQUIRED) <==> Trim(title) == ""
    ensures r == Some(LOCATION_REQUIRED) <==> Trim(title) != "" && Trim(location) == ""
    ensures r.None? <==> Trim(title) != "" && Trim(location) != ""
  {
    if Trim(title) == "" then Some(TITLE_REQUIRED)
    else if Trim(location) == "" then Some(LOCATION_REQUIRED)
    else None
  }

  /** Validation fails on the title exactly when it is blank (empty or all whitespace),
      and on the location exactly when the title is not blank and the location is. */
  lemma BlankFieldsRejected(title: string, location: string)
    ensures Validate(title, location) == Some(TITLE_REQUIRED) <==> AllSpace(title)
    ensures Validate(title, location) == Some(LOCATION_REQUIRED) <==> !AllSpace(title) && AllSpace(location)
    ensures Validate(title, location).None? <==> !AllSpace(title) && !AllSpace(location)
  {
    TrimEmptyIffAllSpace(title);
    TrimEmptyIffAllSpace(location);
  }

  /** `description.trim() || null`. */
  function TrimmedOrNull(s: string): (r: Option<string>)
    ensures r.None? <==> AllSpace(s)
    ensures r.Some? ==> r.value == Trim(s) && r.value != ""
  {
    TrimEmptyIffAllSpace(s);
    if Trim(s) == "" then None else Some(Trim(s))
  }

  /** `eventData`: the trimmed title and location, the trimmed description or null, and
      the date. Every text in it is already trimmed; a blank input gives an empty title or location
      and a null description; after validation the title and location are non-empty. */
  function BuildPayload(title: string, description: string, date: int, location: string): (p: Payload)
    ensures p.title == Trim(title) && p.location == Trim(location) && p.description == TrimmedOrNull(description)
    ensures p.date == date
    ensures Trim(p.title) == p.title && Trim(p.location) == p.location
    ensures p.title == "" <==> AllSpace(title)
    ensures p.location == "" <==> AllSpace(location)
    ensures p.description.None? <==> AllSpace(description)
    ensures p.description.Some? ==> p.description.value != "" && Trim(p.description.value) == p.description.value
    ensures Validate(title, location).None? ==> p.title != "" && p.location != ""
  {
    TrimIdempotent(title);
    TrimIdempotent(location);
    TrimIdempotent(description);
    TrimEmptyIffAllSpace(title);
    TrimEmptyIffAllSpace(location);
    Payload(Trim(title), TrimmedOrNull(description), date, Trim(location))
  }

  /** Building the payload twice, the second time from the first payload's fields, gives
      the same payload. */
  lemma PayloadStable(title: string, description: string, date: int, location: string)
    ensures
      var p := BuildPayload(title, description, date, location);
      BuildPayload(p.title, if p.description.Some? then p.description.value else "", p.date, p.location) == p
  {
    TrimIdempotent(title);
    TrimIdempotent(location);
    TrimIdempotent(description);
    TrimEmptyIffAllSpace(description);
    TrimEmptyIffAllSpace("");
  }

  /** Edit mode (an event id to edit) sends a PUT to that event; otherwise a POST. */
  function RequestFor(editId: Option<string>, p: Payload): (r: Request)
    ensures r.body == p
    ensures r.verb == Put <==> editId.Some?
    ensures editId.Some? ==> StartsWith(r.path, EVENTS_PATH + "/") && r.path[|EVENTS_PATH| + 1..] == editId.value
    ensures editId.None? ==> r.path == EVENTS_PATH
  {
    if editId.Some? then
      var path := EVENTS_PATH + "/" + editId.value;
      assert path[..|EVENTS_PATH| + 1] == EVENTS_PATH + "/";
      Request(Put, path, p)
    else Request(Post, EVENTS_PATH, p)
  }

  /** `error.response?.data?.error || 'No se pudo guardar el evento'`. */
  function FailureMessage(serverError: Option<string>): (m: string)
    ensures m != ""
    ensures serverError.Some? && serverError.value != "" ==> m == serverError.value
    ensures serverError.None? || serverError.value == "" ==> m == SAVE_FAILED
  {
    if serverError.Some? && serverError.value != "" then serverError.value else SAVE_FAILED
  }

  /** The alert shown once the request settles. */
  function OutcomeAlert(editId: Option<string>, outcome: Outcome): (a: Alert)
    ensures outcome.Resolved? ==> a.title == SUCCESS_TITLE && a.message == (if editId.Some? then UPDATED else CREATED_OK)
    ensures outcome.Rejected? ==> a == Alert(ERROR_TITLE, FailureMessage(outcome.serverError))
  {
    match outcome
    case Resolved => Alert(SUCCESS_TITLE, if editId.Some? then UPDATED else CREATED_OK)
    case Rejected(e) => Alert(ERROR_TITLE, FailureMessage(e))
  }

  /** The form as one `handleSubmit` call sees it: the four inputs and the event being
      edited (if any), which the handler reads and never writes, and the state it changes:
      the `loading` flag with the history of its updates, the requests sent and the alerts
      shown. */
  class Form {
    const title: string
    const description: string
    const location: string
    const date: int
    const editId: Option<string>
    var loading: bool
    var loadingUpdates: seq<bool>
    var sent: seq<Request>
    var alerts: seq<Alert>

    /** A new form; in edit mode its inputs start from the event being edited. */
    constructor (editId: Option<string>, title: string, description: string, location: string, date: int)
      ensures this.editId == editId && this.title == title && this.description == description
      ensures this.location == location && this.date == date
      ensures !loading && loadingUpdates == [] && sent == [] && alerts == []
    {
      this.editId := editId;
      this.title, this.description, this.location, this.date := title, description, location, date;
      loading, loadingUpdates, sent, alerts := false, [], [], [];
    }

    /** `handleSubmit`. */
    method HandleSubmit(api: Request -> Outcome)
      modifies this
      ensures Validate(title, location).Some? ==>
        && alerts == old(alerts) + [Alert(ERROR_TITLE, Validate(title, location).value)]
        && sent == old(sent)
        && loading == old(loading) && loadingUpdates == old(loadingUpdates)
      ensures Validate(title, location).None? ==>
        var req := RequestFor(editId, BuildPayload(title, description, date, location));
        && sent == old(sent) + [req]
        && loadingUpdates == old(loadingUpdates) + [true, false]
        && !loading
        && alerts == old(alerts) + [OutcomeAlert(editId, api(req))]
    {
      var invalid := Validate(title, location);
      if invalid.Some? {
        alerts := alerts + [Alert(ERROR_TITLE, invalid.value)];
        return;
      }
      var updates, sentBefore, alertsBefore := loadingUpdates, sent, alerts;
      loading, loadingUpdates := true, updates + [true];
      var req := RequestFor(editId, BuildPayload(title, description, date, location));
      sent := sentBefore + [req];
      var outcome := api(req);
      alerts := alertsBefore + [OutcomeAlert(editId, outcome)];
      loading, loadingUpdates := false, updates + [true, false];
    }
  }
}
