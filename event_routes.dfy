/** The older handlers of src/event_routes.rs: each answers with a status and
    either JSON or a fixed text body. */
module EventRoutes {
  import opened Basics
  import opened Types
  import opened Sorting
  import opened EventStore
  import opened Filters

  datatype Body = Listing(events: seq<Event>) | Single(event: Event) | Text(text: string)

  datatype Response = Response(status: nat, body: Body)

  const OK: nat := 200
  const NOT_FOUND: nat := 404
  const INTERNAL_SERVER_ERROR: nat := 500
  const DB_ERROR_TEXT: string := "Error with db."
  const NOT_FOUND_TEXT: string := "Event not found."

  /** `show_events`: the sorted listing, or 500 "Error with db.". */
  method ShowEvents(db: EventTable, fault: Fault) returns (resp: Response, ghost raw: seq<Event>)
    requires db.Valid()
    ensures Breaks(fault, 0) ==> resp == Response(500, Text("Error with db."))
    ensures !Breaks(fault, 0) ==> Enumerates(raw, db.rows) && resp == Response(200, Listing(SortByFrom(raw)))
  {
    var all;
    all, raw := db.GetAllEvents(fault);
    if all.Success? {
      resp := Response(OK, Listing(all.value));
    } else {
      resp := Response(INTERNAL_SERVER_ERROR, Text(DB_ERROR_TEXT));
    }
  }

  /** `event_detail`: 200 with the row, 404 "Event not found." or 500 "Error with db.". */
  method EventDetail(db: EventTable, id: u64, fault: Fault) returns (resp: Response)
    ensures Breaks(fault, 0) ==> resp == Response(500, Text("Error with db."))
    ensures !Breaks(fault, 0) && id !in db.rows ==> resp == Response(404, Text("Event not found."))
    ensures !Breaks(fault, 0) && id in db.rows ==> resp == Response(200, Single(db.rows[id]))
  {
    var found := db.GetEvent(id, fault);
    if found.Success? {
      match found.value
      case Some(e) => resp := Response(OK, Single(e));
      case None => resp := Response(NOT_FOUND, Text(NOT_FOUND_TEXT));
    } else {
      resp := Response(INTERNAL_SERVER_ERROR, Text(DB_ERROR_TEXT));
    }
  }

  /** `delete_event`: the same three answers around `delete_event` of the store. */
  method DeleteEvent(db: EventTable, id: u64, fault: Fault) returns (resp: Response)
    requires db.Valid()
    modifies db`rows
    ensures db.Valid()
    ensures Breaks(fault, 0) ==> resp == Response(500, Text("Error with db.")) && db.rows == old(db.rows)
    ensures !Breaks(fault, 0) && id !in old(db.rows) ==> resp == Response(404, Text("Event not found.")) && db.rows == old(db.rows)
    ensures !Breaks(fault, 0) && id in old(db.rows) ==> resp == Response(200, Single(old(db.rows)[id])) && db.rows == old(db.rows) - {id}
  {
    var removed := db.DeleteEvent(id, fault);
    if removed.Success? {
      match removed.value
      case Some(e) => resp := Response(OK, Single(e));
      case None => resp := Response(NOT_FOUND, Text(NOT_FOUND_TEXT));
    } else {
      resp := Response(INTERNAL_SERVER_ERROR, Text(DB_ERROR_TEXT));
    }
  }

  /** `filter`: the selection, or 500 "Error with db.". */
  method Filter(db: EventTable, q: EventQuery, fault: Fault) returns (resp: Response, ghost raw: seq<Event>)
    requires db.Valid()
    ensures Breaks(fault, 0) ==> resp == Response(500, Text("Error with db."))
    ensures !Breaks(fault, 0) ==> Enumerates(raw, db.rows) && resp == Response(200, Listing(Select(SortByFrom(raw), q)))
  {
    var filtered;
    filtered, raw := FilterEvents(db, q, fault);
    match filtered
    case Success(events) => resp := Response(OK, Listing(events));
    case Failure(_) => resp := Response(INTERNAL_SERVER_ERROR, Text(DB_ERROR_TEXT));
  }

  /** `filter_by_time`: the events within the window, or 500 "Error with db.". */
  method FilterByTime(db: EventTable, q: TimeQuery, fault: Fault) returns (resp: Response, ghost raw: seq<Event>)
    requires db.Valid()
    ensures Breaks(fault, 0) ==> resp == Response(500, Text("Error with db."))
    ensures !Breaks(fault, 0) ==> Enumerates(raw, db.rows) && resp == Response(200, Listing(SelectWindow(SortByFrom(raw), q)))
  {
    var filtered;
    filtered, raw := FilterEventsByTime(db, q, fault);
    match filtered
    case Success(events) => resp := Response(OK, Listing(events));
    case Failure(_) => resp := Response(INTERNAL_SERVER_ERROR, Text(DB_ERROR_TEXT));
  }
}
