/** The SurrealDB `event` table as seen by src/util/db_interactions.rs and
    src/db_interactions.rs: a map from event id to row, held by a class whose
    methods are the store functions of those files. Every database request can
    fail with the one opaque `surrealdb::Error`; which request of a call fails,
    if any, is the `Fault` parameter of that call. */
module EventStore {
  import opened Basics
  import opened Types
  import opened Sorting

  /** The connection either serves every request of one call, or fails the
      `request`-th one (counting from 0 in the order the call issues them). */
  datatype Fault = Healthy | FailsAt(request: nat)

  predicate Breaks(fault: Fault, n: nat) {
    fault.FailsAt? && fault.request == n
  }

  /** Every row is stored under its own id (records are created as `(EVENT_TABLE, event.event_id)`). */
  predicate Keyed(t: map<u64, Event>) {
    forall k | k in t :: t[k].eventId == k
  }

  /** `s` lists every row of `t` once, in some order the database chooses. */
  predicate Enumerates(s: seq<Event>, t: map<u64, Event>) {
    && |s| == |t|
    && (forall i | 0 <= i < |s| :: s[i].eventId in t && t[s[i].eventId] == s[i])
    && (forall k | k in t :: t[k] in s)
  }

  // ---------------------------------------------------------------------------
  // Specification of `create_many_events`

  /** The first event of `es` with id `k`, if there is one. */
  function FirstWithId(es: seq<Event>, k: u64): (r: Option<Event>)
    ensures r.None? <==> forall i | 0 <= i < |es| :: es[i].eventId != k
    ensures r.Some? ==> r.value.eventId == k && exists i ::
      0 <= i < |es| && es[i] == r.value && (forall j | 0 <= j < i :: es[j].eventId != k)
    decreases |es|
  {
    if es == [] then None
    else if es[0].eventId == k then Some(es[0])
    else
      var r := FirstWithId(es[1..], k);
      assert forall i | 1 <= i < |es| :: es[i] == es[1..][i - 1];
      r
  }

  /** The rows the events create in an empty table when earlier events win. */
  function FirstById(es: seq<Event>): map<u64, Event>
    decreases |es|
  {
    if es == [] then map[] else FirstById(es[1..])[es[0].eventId := es[0]]
  }

  /** `FirstById` keeps, for each id that occurs, its first event. */
  lemma {:induction false} FirstByIdFirstWins(es: seq<Event>, k: u64)
    ensures k in FirstById(es) <==> FirstWithId(es, k).Some?
    ensures k in FirstById(es) ==> FirstById(es)[k] == FirstWithId(es, k).value
    decreases |es|
  {
    if es != [] && es[0].eventId != k {
      FirstByIdFirstWins(es[1..], k);
    }
  }

  lemma UnionUpdate(m: map<u64, Event>, t: map<u64, Event>, k: u64, v: Event)
    ensures k in t ==> m[k := v] + t == m + t
    ensures k !in t ==> m[k := v] + t == m + t[k := v]
  {
  }

  /** Where a run of `create_many_events` ends: the table, and whether it returned `Ok`. */
  datatype Bulk = Bulk(rows: map<u64, Event>, ok: bool)

  /** `create_many_events` over `es` on table `t`, its next request being the
      `calls`-th: per event a select, and a create when the id is absent. */
  function CreateMany(t: map<u64, Event>, es: seq<Event>, calls: nat, fault: Fault): Bulk
    decreases |es|
  {
    if es == [] then Bulk(t, true)
    else if Breaks(fault, calls) then Bulk(t, false)
    else if es[0].eventId in t then CreateMany(t, es[1..], calls + 1, fault)
    else if Breaks(fault, calls + 1) then Bulk(t, false)
    else CreateMany(t[es[0].eventId := es[0]], es[1..], calls + 2, fault)
  }

  /** The number of requests a fault-free run issues. */
  function Requests(t: map<u64, Event>, es: seq<Event>): nat
    decreases |es|
  {
    if es == [] then 0
    else if es[0].eventId in t then 1 + Requests(t, es[1..])
    else 2 + Requests(t[es[0].eventId := es[0]], es[1..])
  }

  /** A fault-free run keeps every row that was there and adds, for each new
      id, its first event in the list: later duplicates are skipped and
      nothing is overwritten. */
  lemma {:induction false} CreateManyHealthy(t: map<u64, Event>, es: seq<Event>, calls: nat)
    ensures CreateMany(t, es, calls, Healthy) == Bulk(FirstById(es) + t, true)
    decreases |es|
  {
    if es == [] {
      assert map[] + t == t;
    } else {
      var e := es[0];
      UnionUpdate(FirstById(es[1..]), t, e.eventId, e);
      if e.eventId in t {
        CreateManyHealthy(t, es[1..], calls + 1);
      } else {
        CreateManyHealthy(t[e.eventId := e], es[1..], calls + 2);
      }
    }
  }

  /** The run returns `Ok` exactly when none of the requests it issues fails. */
  lemma {:induction false} CreateManyOk(t: map<u64, Event>, es: seq<Event>, calls: nat, fault: Fault)
    ensures CreateMany(t, es, calls, fault).ok <==>
      !(fault.FailsAt? && calls <= fault.request < calls + Requests(t, es))
    decreases |es|
  {
    if es != [] {
      var e := es[0];
      if e.eventId in t {
        CreateManyOk(t, es[1..], calls + 1, fault);
      } else {
        CreateManyOk(t[e.eventId := e], es[1..], calls + 2, fault);
      }
    }
  }

  /** Whatever fails, the run never removes or overwrites a row, and what it
      added is what a fault-free run over some prefix of the list adds: there
      is no rollback. */
  lemma {:induction false} CreateManyPrefix(t: map<u64, Event>, es: seq<Event>, calls: nat, fault: Fault)
    ensures exists j :: 0 <= j <= |es| && CreateMany(t, es, calls, fault).rows == FirstById(es[..j]) + t
    ensures !CreateMany(t, es, calls, fault).ok ==>
      exists j :: 0 <= j < |es| && CreateMany(t, es, calls, fault).rows == FirstById(es[..j]) + t
    decreases |es|
  {
    var r := CreateMany(t, es, calls, fault).rows;
    assert es[..0] == [] && FirstById([]) == map[];
    assert map[] + t == t;
    if es != [] && !Breaks(fault, calls) && !(es[0].eventId !in t && Breaks(fault, calls + 1)) {
      var e := es[0];
      var t' := if e.eventId in t then t else t[e.eventId := e];
      var c' := if e.eventId in t then calls + 1 else calls + 2;
      CreateManyPrefix(t', es[1..], c', fault);
      var j :| 0 <= j <= |es[1..]| && r == FirstById(es[1..][..j]) + t'
        && (!CreateMany(t, es, calls, fault).ok ==> j < |es[1..]|);
      assert es[..j + 1][1..] == es[1..][..j];
      UnionUpdate(FirstById(es[1..][..j]), t, e.eventId, e);
      assert r == FirstById(es[..j + 1]) + t;
    }
  }

  /** Existing rows survive `create_many_events` unchanged. */
  lemma CreateManyKeepsRows(t: map<u64, Event>, es: seq<Event>, calls: nat, fault: Fault, k: u64)
    requires k in t
    ensures k in CreateMany(t, es, calls, fault).rows && CreateMany(t, es, calls, fault).rows[k] == t[k]
  {
    CreateManyPrefix(t, es, calls, fault);
  }

  lemma {:induction false} CreateManyKeyed(t: map<u64, Event>, es: seq<Event>, calls: nat, fault: Fault)
    requires Keyed(t)
    ensures Keyed(CreateMany(t, es, calls, fault).rows)
    decreases |es|
  {
    if es != [] {
      var e := es[0];
      if e.eventId in t {
        CreateManyKeyed(t, es[1..], calls + 1, fault);
      } else {
        CreateManyKeyed(t[e.eventId := e], es[1..], calls + 2, fault);
      }
    }
  }

  // ---------------------------------------------------------------------------
  // The table

  class EventTable {
    var rows: map<u64, Event>

    ghost predicate Valid()
      reads this
    {
      Keyed(rows)
    }

    /** An empty table. */
    constructor ()
      ensures Valid() && rows == map[]
    {
      rows := map[];
    }

    /** `get_event(id)`: one select by id. */
    method GetEvent(id: u64, fault: Fault) returns (r: Result<Option<Event>, DbError>)
      ensures Breaks(fault, 0) ==> r == Failure(DbError)
      ensures !Breaks(fault, 0) ==> r.Success? && (r.value.Some? <==> id in rows)
      ensures !Breaks(fault, 0) && id in rows ==> r.value == Some(rows[id])
    {
      if Breaks(fault, 0) {
        return Failure(DbError);
      }
      r := Success(if id in rows then Some(rows[id]) else None);
    }

    /** `create_event(event)`: a select by id, then a create only if the id is free. */
    method CreateEvent(event: Event, fault: Fault) returns (r: Result<Option<Event>, DbError>)
      requires Valid()
      modifies this`rows
      ensures Valid()
      ensures Breaks(fault, 0) ==> r == Failure(DbError) && rows == old(rows)
      ensures !Breaks(fault, 0) && event.eventId in old(rows) ==> r == Success(None) && rows == old(rows)
      ensures !Breaks(fault, 0) && event.eventId !in old(rows) && Breaks(fault, 1) ==>
        r == Failure(DbError) && rows == old(rows)
      ensures !Breaks(fault, 0) && event.eventId !in old(rows) && !Breaks(fault, 1) ==>
        r == Success(Some(event)) && rows == old(rows)[event.eventId := event]
    {
      if Breaks(fault, 0) {
        return Failure(DbError);
      }
      if event.eventId in rows {
        return Success(None);
      }
      if Breaks(fault, 1) {
        return Failure(DbError);
      }
      rows := rows[event.eventId := event];
      r := Success(Some(event));
    }

    /** `delete_event(id)`: one delete by id, returning the removed row. */
    method DeleteEvent(id: u64, fault: Fault) returns (r: Result<Option<Event>, DbError>)
      requires Valid()
      modifies this`rows
      ensures Valid()
      ensures Breaks(fault, 0) ==> r == Failure(DbError) && rows == old(rows)
      ensures !Breaks(fault, 0) ==>
        && r == Success(if id in old(rows) then Some(old(rows)[id]) else None)
        && id !in rows
        && rows == old(rows) - {id}
    {
      if Breaks(fault, 0) {
        return Failure(DbError);
      }
      r := Success(if id in rows then Some(rows[id]) else None);
      rows := rows - {id};
    }

    /** `DB.select(EVENT_TABLE)`: every row, in an order the database picks. */
    method SelectAll() returns (s: seq<Event>)
      requires Valid()
      ensures Enumerates(s, rows)
    {
      var left := rows.Keys;
      s := [];
      while left != {}
        invariant left <= rows.Keys
        invariant |s| + |left| == |rows.Keys|
        invariant forall i | 0 <= i < |s| :: s[i].eventId in rows && s[i].eventId !in left && rows[s[i].eventId] == s[i]
        invariant forall k | k in rows && k !in left :: rows[k] in s
        decreases left
      {
        var k :| k in left;
        s := s + [rows[k]];
        left := left - {k};
      }
      assert |rows| == |rows.Keys|;
    }

    /** `purge_events`: one delete of the whole table, returning what it held. */
    method PurgeEvents(fault: Fault) returns (r: Result<seq<Event>, DbError>)
      requires Valid()
      modifies this`rows
      ensures Valid()
      ensures Breaks(fault, 0) ==> r == Failure(DbError) && rows == old(rows)
      ensures !Breaks(fault, 0) ==> r.Success? && Enumerates(r.value, old(rows)) && rows == map[]
    {
      if Breaks(fault, 0) {
        return Failure(DbError);
      }
      var deleted := SelectAll();
      rows := map[];
      r := Success(deleted);
    }

    /** `get_all_events`: one select of the whole table, then `sort_by_key` on
        the start time. `raw` is the database's listing before the sort. */
    method GetAllEvents(fault: Fault) returns (r: Result<seq<Event>, DbError>, ghost raw: seq<Event>)
      requires Valid()
      ensures Breaks(fault, 0) ==> r == Failure(DbError)
      ensures !Breaks(fault, 0) ==> Enumerates(raw, rows) && r == Success(SortByFrom(raw))
      ensures r.Success? ==> SortedByFrom(r.value) && multiset(r.value) == multiset(raw) && |r.value| == |rows|
    {
      if Breaks(fault, 0) {
        return Failure(DbError), [];
      }
      var listing := SelectAll();
      raw := listing;
      var a := new Event[|listing|](i requires 0 <= i < |listing| => listing[i]);
      assert a[..] == listing;
      SortInPlace(a);
      r := Success(a[..]);
      SortByFromSorted(listing);
      SortByFromPermutes(listing);
    }

    /** `create_many_events(events)`: per event a select by id and, when the id
        is free, a create; the first failing request ends the call. */
    method CreateManyEvents(events: seq<Event>, fault: Fault) returns (r: Result<(), DbError>)
      requires Valid()
      modifies this`rows
      ensures Valid()
      ensures rows == CreateMany(old(rows), events, 0, fault).rows
      ensures r.Success? <==> CreateMany(old(rows), events, 0, fault).ok
    {
      ghost var goal := CreateMany(rows, events, 0, fault);
      var i := 0;
      var calls := 0;
      while i < |events|
        invariant 0 <= i <= |events|
        invariant Valid()
        invariant CreateMany(rows, events[i..], calls, fault) == goal
      {
        var e := events[i];
        assert events[i..][0] == e && events[i..][1..] == events[i + 1..];
        if Breaks(fault, calls) {
          return Failure(DbError);
        }
        if e.eventId in rows {
          calls := calls + 1;
        } else {
          if Breaks(fault, calls + 1) {
            return Failure(DbError);
          }
          rows := rows[e.eventId := e];
          calls := calls + 2;
        }
        i := i + 1;
      }
      r := Success(());
    }
  }

  // ---------------------------------------------------------------------------
  // Properties that relate several calls

  /** What `create_event` stored, `get_event` hands back. */
  method CreateThenGet(table: EventTable, event: Event) returns (found: Result<Option<Event>, DbError>)
    requires table.Valid() && event.eventId !in table.rows
    modifies table`rows
    ensures found == Success(Some(event))
  {
    var created := table.CreateEvent(event, Healthy);
    found := table.GetEvent(event.eventId, Healthy);
  }

  /** A second `create_event` with the same id is refused and keeps the first row. */
  method CreateTwice(table: EventTable, first: Event, second: Event) returns (r: Result<Option<Event>, DbError>)
    requires table.Valid() && first.eventId !in table.rows && second.eventId == first.eventId
    modifies table`rows
    ensures r == Success(None) && table.rows == old(table.rows)[first.eventId := first]
  {
    var created := table.CreateEvent(first, Healthy);
    r := table.CreateEvent(second, Healthy);
  }

  /** After `delete_event`, `get_event` finds nothing under that id. */
  method DeleteThenGet(table: EventTable, id: u64) returns (found: Result<Option<Event>, DbError>)
    requires table.Valid()
    modifies table`rows
    ensures found == Success(None)
  {
    var deleted := table.DeleteEvent(id, Healthy);
    found := table.GetEvent(id, Healthy);
  }
}
