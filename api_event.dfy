/** The actix handlers of src/api/event.rs: each calls the store and turns
    its result into a JSON value or an `EventError`, whose status code is
    fixed per variant. */
module ApiEvent {
  import opened Basics
  import opened Types
  import opened Sorting
  import opened EventStore
  import opened Filters
  import opened CsvParse
  import opened Reconcile

  datatype EventError = EventNotFound | EventUpdateFailure | EventCreationFailure | EventDbError

  /** `EventError::status_code`: not found is 404, a refused update or
      creation is 424, a store failure is 500. */
  function StatusCode(e: EventError): (code: nat)
    ensures code == 404 <==> e == EventNotFound
    ensures code == 424 <==> e == EventUpdateFailure || e == EventCreationFailure
    ensures code == 500 <==> e == EventDbError
  {
    match e
    case EventNotFound => 404
    case EventUpdateFailure => 424
    case EventCreationFailure => 424
    case EventDbError => 500
  }

  /** `show_events`: a failing store is reported as "not found". */
  method ShowEvents(db: EventTable, fault: Fault) returns (r: Result<seq<Event>, EventError>, ghost raw: seq<Event>)
    requires db.Valid()
    ensures Breaks(fault, 0) ==> r == Failure(EventNotFound)
    ensures !Breaks(fault, 0) ==> Enumerates(raw, db.rows) && r == Success(SortByFrom(raw))
  {
    var all;
    all, raw := db.GetAllEvents(fault);
    match all
    case Success(events) => r := Success(events);
    case Failure(_) => r := Failure(EventNotFound);
  }

  /** `event_detail`: the row with that id, "not found" when there is none,
      a store error otherwise. */
  method EventDetail(db: EventTable, id: u64, fault: Fault) returns (r: Result<Event, EventError>)
    ensures Breaks(fault, 0) ==> r == Failure(EventDbError)
    ensures !Breaks(fault, 0) && id !in db.rows ==> r == Failure(EventNotFound)
    ensures !Breaks(fault, 0) && id in db.rows ==> r == Success(db.rows[id])
  {
    var found := db.GetEvent(id, fault);
    if found.Success? {
      match found.value
      case Some(e) => r := Success(e);
      case None => r := Failure(EventNotFound);
    } else {
      r := Failure(EventDbError);
    }
  }

  /** `delete_event`: the removed row, "not found" when there was none. */
  method DeleteEvent(db: EventTable, id: u64, fault: Fault) returns (r: Result<Event, EventError>)
    requires db.Valid()
    modifies db`rows
    ensures db.Valid()
    ensures Breaks(fault, 0) ==> r == Failure(EventDbError) && db.rows == old(db.rows)
    ensures !Breaks(fault, 0) && id !in old(db.rows) ==> r == Failure(EventNotFound) && db.rows == old(db.rows)
    ensures !Breaks(fault, 0) && id in old(db.rows) ==> r == Success(old(db.rows)[id]) && db.rows == old(db.rows) - {id}
  {
    var removed := db.DeleteEvent(id, fault);
    if removed.Success? {
      match removed.value
      case Some(e) => r := Success(e);
      case None => r := Failure(EventNotFound);
    } else {
      r := Failure(EventDbError);
    }
  }

  /** `filter`: any failure of `filter_events` is a store error. */
  method Filter(db: EventTable, q: EventQuery, fault: Fault) returns (r: Result<seq<Event>, EventError>, ghost raw: seq<Event>)
    requires db.Valid()
    ensures Breaks(fault, 0) ==> r == Failure(EventDbError)
    ensures !Breaks(fault, 0) ==> Enumerates(raw, db.rows) && r == Success(Select(SortByFrom(raw), q))
  {
    var filtered;
    filtered, raw := FilterEvents(db, q, fault);
    match filtered
    case Success(events) => r := Success(events);
    case Failure(_) => r := Failure(EventDbError);
  }

  /** `filter_by_time`: any failure of `filter_events_by_time` is a store error. */
  method FilterByTime(db: EventTable, q: TimeQuery, fault: Fault) returns (r: Result<seq<Event>, EventError>, ghost raw: seq<Event>)
    requires db.Valid()
    ensures Breaks(fault, 0) ==> r == Failure(EventDbError)
    ensures !Breaks(fault, 0) ==> Enumerates(raw, db.rows) && r == Success(SelectWindow(SortByFrom(raw), q))
  {
    var filtered;
    filtered, raw := FilterEventsByTime(db, q, fault);
    match filtered
    case Success(events) => r := Success(events);
    case Failure(_) => r := Failure(EventDbError);
  }

  /** `create_new_event`, given the event `Event::from_submit` built: an id
      already in use is a refused creation. */
  method CreateNewEvent(db: EventTable, event: Event, fault: Fault) returns (r: Result<Event, EventError>)
    requires db.Valid()
    modifies db`rows
    ensures db.Valid()
    ensures Breaks(fault, 0) ==> r == Failure(EventDbError) && db.rows == old(db.rows)
    ensures !Breaks(fault, 0) && event.eventId in old(db.rows) ==> r == Failure(EventCreationFailure) && db.rows == old(db.rows)
    ensures !Breaks(fault, 0) && event.eventId !in old(db.rows) && Breaks(fault, 1) ==>
      r == Failure(EventDbError) && db.rows == old(db.rows)
    ensures !Breaks(fault, 0) && event.eventId !in old(db.rows) && !Breaks(fault, 1) ==>
      r == Success(event) && db.rows == old(db.rows)[event.eventId := event]
  {
    var created := db.CreateEvent(event, fault);
    if created.Success? {
      match created.value
      case Some(e) => r := Success(e);
      case None => r := Failure(EventCreationFailure);
    } else {
      r := Failure(EventDbError);
    }
  }

  /** The `refresh_db` endpoint: always `Ok`, carrying the outcome of `update_db`. */
  method RefreshDb(db: EventTable, file: FileInput, purge: Fault, insert: Fault) returns (r: Result<DbUpdateData, EventError>)
    requires db.Valid()
    modifies db`rows
    ensures db.Valid()
    ensures r.Success? && (r.value, db.rows) == Sync(old(db.rows), file, purge, insert)
  {
    var data := UpdateDb(db, file, purge, insert);
    r := Success(data);
  }
}
