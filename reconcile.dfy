/** `update_db` of src/util/db_interactions.rs: read and parse the export, purge
    the event table, then insert the parsed events, reporting which stage
    stopped the run. */
module Reconcile {
  import opened Basics
  import opened Types
  import opened CsvParse
  import opened EventStore

  /** `DBUpdateData`; the field keeps the source's spelling. */
  datatype DbUpdateData = DbUpdateData(deletedEvents: nat, answerString: string, sucess: bool)

  const READ_FAILED: string := "Could not read csv file"
  const PARSE_FAILED: string := "Could not parse csv file"
  const NOT_REFILLED: string := "Purged db, but cannot read in new data."
  const UPDATED: string := "Successfully updated database with new data."

  /** The outcome of `update_db` and the table it leaves, from the table `t`
      before the run, the export file, and the faults of the purge and of the
      inserts. */
  function Sync(t: map<u64, Event>, file: FileInput, purge: Fault, insert: Fault): (DbUpdateData, map<u64, Event>)
  {
    if file.Unreadable? then (DbUpdateData(0, READ_FAILED, false), t)
    else
      var parsed := ParseText(Cleaned(file.decoded, false));
      if parsed.Failure? then (DbUpdateData(0, PARSE_FAILED, false), t)
      else if Breaks(purge, 0) then (DbUpdateData(0, NOT_REFILLED, false), t)
      else
        var bulk := CreateMany(map[], parsed.value, 0, insert);
        (DbUpdateData(|t|, if bulk.ok then UPDATED else NOT_REFILLED, bulk.ok), bulk.rows)
  }

  /** `update_db` on the table `db`. The export is decoded with "latin1", an
      encoding label that is always known. */
  method UpdateDb(db: EventTable, file: FileInput, purge: Fault, insert: Fault) returns (data: DbUpdateData)
    requires db.Valid()
    modifies db`rows
    ensures db.Valid()
    ensures (data, db.rows) == Sync(old(db.rows), file, purge, insert)
  {
    var parser := new CsvParser("latin1", "./input_files/Infopanel_new.csv");
    var read := parser.ReadFile(file, true);
    if read.Failure? {
      return DbUpdateData(0, READ_FAILED, false);
    }
    var parsed := parser.ParseContents();
    if parsed.Failure? {
      return DbUpdateData(0, PARSE_FAILED, false);
    }
    var events := parser.GetEvents();
    if events.Some? {
      ghost var before := db.rows;
      var purged := db.PurgeEvents(purge);
      if purged.Success? {
        var created := db.CreateManyEvents(events.value, insert);
        if created.Success? {
          return DbUpdateData(|purged.value|, UPDATED, true);
        }
        return DbUpdateData(|purged.value|, NOT_REFILLED, false);
      }
    }
    return DbUpdateData(0, NOT_REFILLED, false);
  }

  /** The import file and its parse, as `update_db` sees them. */
  predicate Imports(file: FileInput, events: seq<Event>) {
    file.Readable? && ParseText(Cleaned(file.decoded, false)) == Success(events)
  }

  /** A run that fails before the purge reports nothing deleted and leaves the
      table as it was; which message it gives depends on the stage. */
  lemma SyncEarlyFailure(t: map<u64, Event>, file: FileInput, purge: Fault, insert: Fault)
    requires !(exists events :: Imports(file, events)) || Breaks(purge, 0)
    ensures var (data, rows) := Sync(t, file, purge, insert);
      && rows == t && data.deletedEvents == 0 && !data.sucess
      && (file.Unreadable? ==> data.answerString == "Could not read csv file")
      && (file.Readable? && ParseText(Cleaned(file.decoded, false)).Failure? ==>
            data.answerString == "Could not parse csv file")
      && (file.Readable? && ParseText(Cleaned(file.decoded, false)).Success? ==>
            data.answerString == "Purged db, but cannot read in new data.")
  {
    if file.Unreadable? {
    } else {
      var parsed := ParseText(Cleaned(file.decoded, false));
      if parsed.Failure? {
        SyncUnparsable(t, file, purge, insert);
      } else {
        assert Imports(file, parsed.value);
        SyncPurgeFails(t, file, parsed.value, purge, insert);
      }
    }
  }

  lemma SyncUnparsable(t: map<u64, Event>, file: FileInput, purge: Fault, insert: Fault)
    requires file.Readable? && ParseText(Cleaned(file.decoded, false)).Failure?
    ensures Sync(t, file, purge, insert) == (DbUpdateData(0, PARSE_FAILED, false), t)
  {
  }

  lemma SyncPurgeFails(t: map<u64, Event>, file: FileInput, events: seq<Event>, purge: Fault, insert: Fault)
    requires Imports(file, events) && Breaks(purge, 0)
    ensures Sync(t, file, purge, insert) == (DbUpdateData(0, NOT_REFILLED, false), t)
  {
  }

  /** Past the purge, the run is the bulk insert into the emptied table. */
  lemma SyncRefills(t: map<u64, Event>, file: FileInput, events: seq<Event>, purge: Fault, insert: Fault)
    requires Imports(file, events) && !Breaks(purge, 0)
    ensures var bulk := CreateMany(map[], events, 0, insert);
      Sync(t, file, purge, insert) == (DbUpdateData(|t|, if bulk.ok then UPDATED else NOT_REFILLED, bulk.ok), bulk.rows)
  {
  }

  /** Once the purge succeeds, the report counts every row that was there,
      and the run succeeds exactly when no insert request fails; then the
      table holds the imported events, one per id, the first occurrence
      winning. */
  lemma SyncAfterPurge(t: map<u64, Event>, file: FileInput, events: seq<Event>, purge: Fault, insert: Fault)
    requires Imports(file, events) && !Breaks(purge, 0)
    ensures var (data, rows) := Sync(t, file, purge, insert);
      && data.deletedEvents == |t|
      && (data.sucess <==> !(insert.FailsAt? && insert.request < Requests(map[], events)))
      && (data.sucess ==> data.answerString == "Successfully updated database with new data."
                          && rows == FirstById(events))
      && (!data.sucess ==> data.answerString == "Purged db, but cannot read in new data.")
  {
    SyncRefills(t, file, events, purge, insert);
    CreateManyOk(map[], events, 0, insert);
    CreateManyHealthy(map[], events, 0);
    assert FirstById(events) + map[] == FirstById(events);
    if !CreateMany(map[], events, 0, insert).ok {
    } else {
      // a run whose requests all succeed is the fault-free run
      CreateManyAgrees(map[], events, 0, insert);
    }
  }

  /** A run that does not fail follows the fault-free run. */
  lemma {:induction false} CreateManyAgrees(t: map<u64, Event>, es: seq<Event>, calls: nat, fault: Fault)
    requires CreateMany(t, es, calls, fault).ok
    ensures CreateMany(t, es, calls, fault) == CreateMany(t, es, calls, Healthy)
    decreases |es|
  {
    if es != [] {
      var e := es[0];
      if e.eventId in t {
        CreateManyAgrees(t, es[1..], calls + 1, fault);
      } else {
        CreateManyAgrees(t[e.eventId := e], es[1..], calls + 2, fault);
      }
    }
  }

  /** A failed insert leaves the rows of some prefix of the import: nothing
      is rolled back. */
  lemma SyncPartial(t: map<u64, Event>, file: FileInput, events: seq<Event>, purge: Fault, insert: Fault)
    requires Imports(file, events) && !Breaks(purge, 0) && !Sync(t, file, purge, insert).0.sucess
    ensures exists j :: 0 <= j < |events| && Sync(t, file, purge, insert).1 == FirstById(events[..j])
  {
    SyncRefills(t, file, events, purge, insert);
    var j := BulkPartial(events, insert);
  }

  /** A failed bulk insert into the empty table leaves a strict prefix of the import. */
  lemma BulkPartial(events: seq<Event>, insert: Fault) returns (j: nat)
    requires !CreateMany(map[], events, 0, insert).ok
    ensures j < |events| && CreateMany(map[], events, 0, insert).rows == FirstById(events[..j])
  {
    CreateManyPrefix(map[], events, 0, insert);
    j :| 0 <= j < |events| && CreateMany(map[], events, 0, insert).rows == FirstById(events[..j]) + map[];
    assert FirstById(events[..j]) + map[] == FirstById(events[..j]);
  }

  /** Running the import twice on a healthy store leaves the same table as
      running it once; the second run deletes what the first one wrote. */
  lemma SyncIdempotent(t: map<u64, Event>, file: FileInput)
    ensures var (first, once) := Sync(t, file, Healthy, Healthy);
      var (second, twice) := Sync(once, file, Healthy, Healthy);
      twice == once && (first.sucess ==> second.sucess && second.deletedEvents == |once|)
  {
    if file.Readable? && ParseText(Cleaned(file.decoded, false)).Success? {
      var events := ParseText(Cleaned(file.decoded, false)).value;
      CreateManyHealthy(map[], events, 0);
    }
  }

  /** An import without data rows empties a populated table and reports
      success, counting the rows it removed. */
  lemma SyncEmptyImport(t: map<u64, Event>, file: FileInput)
    requires Imports(file, [])
    ensures Sync(t, file, Healthy, Healthy) == (DbUpdateData(|t|, "Successfully updated database with new data.", true), map[])
  {
  }
}
