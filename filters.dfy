/** `filter_events` and `filter_events_by_time`, which appear with the same
    text in src/api/event.rs and src/event_routes.rs: the sorted listing of
    the whole table, narrowed one optional query field at a time. */
module Filters {
  import opened Basics
  import opened Types
  import opened Sorting
  import opened EventStore

  /** `EventQuery`: each present field must match exactly. */
  datatype EventQuery = EventQuery(
    department: Option<string>,
    className: Option<string>,
    subject: Option<string>,
    teacher: Option<string>,
    room: Option<string>,
    building: Option<string>,
    visible: Option<bool>
  )

  /** `TimeQuery`: inclusive bounds on the start and the end. */
  datatype TimeQuery = TimeQuery(fromDatetime: Option<DateTime>, toDatetime: Option<DateTime>)

  /** The text columns a query can compare. */
  datatype Column = Department | ClassName | Subject | Teacher | Room | Building

  function ColumnOf(e: Event, c: Column): string {
    match c
    case Department => e.department
    case ClassName => e.className
    case Subject => e.subject
    case Teacher => e.teacher
    case Room => e.room
    case Building => e.building
  }

  /** The closure passed to one `.filter(...)` call. */
  datatype Criterion =
    | ColumnIs(column: Column, value: string)
    | VisibleIs(flag: bool)
    | StartsAtOrAfter(from: DateTime)
    | EndsAtOrBefore(to: DateTime)

  predicate Holds(e: Event, c: Criterion) {
    match c
    case ColumnIs(col, v) => ColumnOf(e, col) == v
    case VisibleIs(b) => e.visible == b
    case StartsAtOrAfter(t) => AtOrBefore(t, e.fromDatetime)
    case EndsAtOrBefore(t) => AtOrBefore(e.toDatetime, t)
  }

  /** `events.into_iter().filter(..).collect()`. */
  function Keep(s: seq<Event>, c: Criterion): seq<Event>
    decreases |s|
  {
    if s == [] then []
    else (if Holds(s[0], c) then [s[0]] else []) + Keep(s[1..], c)
  }

  /** One `if let Some(value) = query.field { events = … }` step. */
  function Narrow(s: seq<Event>, c: Option<Criterion>): seq<Event> {
    if c.Some? then Keep(s, c.value) else s
  }

  function ColumnStep(col: Column, v: Option<string>): Option<Criterion> {
    if v.Some? then Some(ColumnIs(col, v.value)) else None
  }

  /** The filtering part of `filter_events`, in the source's field order. */
  function NarrowByQuery(events: seq<Event>, q: EventQuery): seq<Event> {
    var s1 := Narrow(events, ColumnStep(Department, q.department));
    var s2 := Narrow(s1, ColumnStep(ClassName, q.className));
    var s3 := Narrow(s2, ColumnStep(Subject, q.subject));
    var s4 := Narrow(s3, ColumnStep(Teacher, q.teacher));
    var s5 := Narrow(s4, ColumnStep(Room, q.room));
    var s6 := Narrow(s5, ColumnStep(Building, q.building));
    Narrow(s6, if q.visible.Some? then Some(VisibleIs(q.visible.value)) else None)
  }

  /** The filtering part of `filter_events_by_time`. */
  function NarrowByTime(events: seq<Event>, q: TimeQuery): seq<Event> {
    var s1 := Narrow(events, if q.fromDatetime.Some? then Some(StartsAtOrAfter(q.fromDatetime.value)) else None);
    Narrow(s1, if q.toDatetime.Some? then Some(EndsAtOrBefore(q.toDatetime.value)) else None)
  }

  // ---------------------------------------------------------------------------
  // Single-pass reference definitions

  predicate FieldMatches(actual: string, wanted: Option<string>) {
    wanted.Some? ==> actual == wanted.value
  }

  /** `e` agrees with every field the query gives. */
  predicate Matches(e: Event, q: EventQuery) {
    && FieldMatches(e.department, q.department)
    && FieldMatches(e.className, q.className)
    && FieldMatches(e.subject, q.subject)
    && FieldMatches(e.teacher, q.teacher)
    && FieldMatches(e.room, q.room)
    && FieldMatches(e.building, q.building)
    && (q.visible.Some? ==> e.visible == q.visible.value)
  }

  /** `e` lies within the bounds the query gives, both inclusive. */
  predicate InWindow(e: Event, q: TimeQuery) {
    && (q.fromDatetime.Some? ==> AtOrBefore(q.fromDatetime.value, e.fromDatetime))
    && (q.toDatetime.Some? ==> AtOrBefore(e.toDatetime, q.toDatetime.value))
  }

  function Select(s: seq<Event>, q: EventQuery): seq<Event>
    decreases |s|
  {
    if s == [] then []
    else (if Matches(s[0], q) then [s[0]] else []) + Select(s[1..], q)
  }

  function SelectWindow(s: seq<Event>, q: TimeQuery): seq<Event>
    decreases |s|
  {
    if s == [] then []
    else (if InWindow(s[0], q) then [s[0]] else []) + SelectWindow(s[1..], q)
  }

  // ---------------------------------------------------------------------------
  // The step-by-step narrowing is the single pass

  /** Keeping the events that satisfy every criterion of a list. */
  predicate HoldsAll(e: Event, cs: seq<Criterion>) {
    forall i | 0 <= i < |cs| :: Holds(e, cs[i])
  }

  function KeepAll(s: seq<Event>, cs: seq<Criterion>): seq<Event>
    decreases |s|
  {
    if s == [] then []
    else (if HoldsAll(s[0], cs) then [s[0]] else []) + KeepAll(s[1..], cs)
  }

  function Given(c: Option<Criterion>): seq<Criterion> {
    if c.Some? then [c.value] else []
  }

  lemma {:induction false} NarrowAddsCriterion(s: seq<Event>, cs: seq<Criterion>, c: Option<Criterion>)
    ensures Narrow(KeepAll(s, cs), c) == KeepAll(s, cs + Given(c))
    decreases |s|
  {
    if c.None? {
      assert cs + Given(c) == cs;
    } else if s != [] {
      NarrowAddsCriterion(s[1..], cs, c);
      var k := KeepAll(s, cs);
      assert HoldsAll(s[0], cs + [c.value]) <==> HoldsAll(s[0], cs) && Holds(s[0], c.value) by {
        if HoldsAll(s[0], cs) && Holds(s[0], c.value) {
          forall i | 0 <= i < |cs| + 1 ensures Holds(s[0], (cs + [c.value])[i]) {
            if i < |cs| { assert (cs + [c.value])[i] == cs[i]; }
          }
        }
        if HoldsAll(s[0], cs + [c.value]) {
          assert (cs + [c.value])[|cs|] == c.value;
          forall i | 0 <= i < |cs| ensures Holds(s[0], cs[i]) {
            assert (cs + [c.value])[i] == cs[i];
          }
        }
      }
      if HoldsAll(s[0], cs) {
        assert k == [s[0]] + KeepAll(s[1..], cs);
        assert k[0] == s[0] && k[1..] == KeepAll(s[1..], cs);
      } else {
        assert k == KeepAll(s[1..], cs);
      }
    }
  }

  lemma {:induction false} KeepNone(s: seq<Event>)
    ensures KeepAll(s, []) == s
    decreases |s|
  {
    if s != [] {
      KeepNone(s[1..]);
      assert s == [s[0]] + s[1..];
    }
  }

  lemma {:induction false} KeepAllAgrees(s: seq<Event>, cs: seq<Criterion>, q: EventQuery)
    requires forall e :: HoldsAll(e, cs) <==> Matches(e, q)
    ensures KeepAll(s, cs) == Select(s, q)
    decreases |s|
  {
    if s != [] {
      KeepAllAgrees(s[1..], cs, q);
    }
  }

  lemma {:induction false} KeepAllAgreesWindow(s: seq<Event>, cs: seq<Criterion>, q: TimeQuery)
    requires forall e :: HoldsAll(e, cs) <==> InWindow(e, q)
    ensures KeepAll(s, cs) == SelectWindow(s, q)
    decreases |s|
  {
    if s != [] {
      KeepAllAgreesWindow(s[1..], cs, q);
    }
  }

  function VisibleStep(q: EventQuery): Option<Criterion> {
    if q.visible.Some? then Some(VisibleIs(q.visible.value)) else None
  }

  /** The criteria `filter_events` applies, in order. */
  function QueryCriteria(q: EventQuery): seq<Criterion> {
    Given(ColumnStep(Department, q.department)) + Given(ColumnStep(ClassName, q.className))
      + Given(ColumnStep(Subject, q.subject)) + Given(ColumnStep(Teacher, q.teacher))
      + Given(ColumnStep(Room, q.room)) + Given(ColumnStep(Building, q.building))
      + Given(VisibleStep(q))
  }

  lemma HoldsAllGiven(e: Event, c: Option<Criterion>)
    ensures HoldsAll(e, Given(c)) <==> (c.Some? ==> Holds(e, c.value))
  {
    if c.Some? {
      assert Given(c)[0] == c.value;
    }
  }

  lemma HoldsAllAppend(e: Event, a: seq<Criterion>, b: seq<Criterion>)
    ensures HoldsAll(e, a + b) <==> HoldsAll(e, a) && HoldsAll(e, b)
  {
    if HoldsAll(e, a) && HoldsAll(e, b) {
      forall i | 0 <= i < |a + b| ensures Holds(e, (a + b)[i]) {
        if i < |a| { assert (a + b)[i] == a[i]; } else { assert (a + b)[i] == b[i - |a|]; }
      }
    }
    if HoldsAll(e, a + b) {
      forall i | 0 <= i < |a| ensures Holds(e, a[i]) { assert (a + b)[i] == a[i]; }
      forall i | 0 <= i < |b| ensures Holds(e, b[i]) { assert (a + b)[|a| + i] == b[i]; }
    }
  }

  lemma ColumnStepMeaning(e: Event, col: Column, v: Option<string>)
    ensures HoldsAll(e, Given(ColumnStep(col, v))) <==> FieldMatches(ColumnOf(e, col), v)
  {
    HoldsAllGiven(e, ColumnStep(col, v));
  }

  lemma QueryCriteriaMeaning(e: Event, q: EventQuery)
    ensures HoldsAll(e, QueryCriteria(q)) <==> Matches(e, q)
  {
    var g1, g2, g3 := Given(ColumnStep(Department, q.department)), Given(ColumnStep(ClassName, q.className)), Given(ColumnStep(Subject, q.subject));
    var g4, g5, g6 := Given(ColumnStep(Teacher, q.teacher)), Given(ColumnStep(Room, q.room)), Given(ColumnStep(Building, q.building));
    var g7 := Given(VisibleStep(q));
    ColumnStepMeaning(e, Department, q.department);
    ColumnStepMeaning(e, ClassName, q.className);
    ColumnStepMeaning(e, Subject, q.subject);
    ColumnStepMeaning(e, Teacher, q.teacher);
    ColumnStepMeaning(e, Room, q.room);
    ColumnStepMeaning(e, Building, q.building);
    HoldsAllGiven(e, VisibleStep(q));
    var p2 := g1 + g2;
    var p3 := p2 + g3;
    var p4 := p3 + g4;
    var p5 := p4 + g5;
    var p6 := p5 + g6;
    HoldsAllAppend(e, g1, g2);
    HoldsAllAppend(e, p2, g3);
    HoldsAllAppend(e, p3, g4);
    HoldsAllAppend(e, p4, g5);
    HoldsAllAppend(e, p5, g6);
    HoldsAllAppend(e, p6, g7);
  }

  /** The seven narrowing steps select, in one pass and in listing order,
      exactly the events that match every field the query gives. */
  lemma NarrowByQueryIsSelect(events: seq<Event>, q: EventQuery)
    ensures NarrowByQuery(events, q) == Select(events, q)
  {
    var c1, c2, c3 := ColumnStep(Department, q.department), ColumnStep(ClassName, q.className), ColumnStep(Subject, q.subject);
    var c4, c5, c6 := ColumnStep(Teacher, q.teacher), ColumnStep(Room, q.room), ColumnStep(Building, q.building);
    var c7 := VisibleStep(q);
    KeepNone(events);
    assert [] + Given(c1) == Given(c1);
    NarrowAddsCriterion(events, [], c1);
    NarrowAddsCriterion(events, Given(c1), c2);
    NarrowAddsCriterion(events, Given(c1) + Given(c2), c3);
    NarrowAddsCriterion(events, Given(c1) + Given(c2) + Given(c3), c4);
    NarrowAddsCriterion(events, Given(c1) + Given(c2) + Given(c3) + Given(c4), c5);
    NarrowAddsCriterion(events, Given(c1) + Given(c2) + Given(c3) + Given(c4) + Given(c5), c6);
    NarrowAddsCriterion(events, Given(c1) + Given(c2) + Given(c3) + Given(c4) + Given(c5) + Given(c6), c7);
    assert NarrowByQuery(events, q) == KeepAll(events, QueryCriteria(q));
    forall e ensures HoldsAll(e, QueryCriteria(q)) <==> Matches(e, q) {
      QueryCriteriaMeaning(e, q);
    }
    KeepAllAgrees(events, QueryCriteria(q), q);
  }

  /** The two bounds select exactly the events within the window, in order. */
  lemma NarrowByTimeIsSelect(events: seq<Event>, q: TimeQuery)
    ensures NarrowByTime(events, q) == SelectWindow(events, q)
  {
    var c1 := if q.fromDatetime.Some? then Some(StartsAtOrAfter(q.fromDatetime.value)) else None;
    var c2 := if q.toDatetime.Some? then Some(EndsAtOrBefore(q.toDatetime.value)) else None;
    KeepNone(events);
    assert [] + Given(c1) == Given(c1);
    NarrowAddsCriterion(events, [], c1);
    NarrowAddsCriterion(events, Given(c1), c2);
    forall e ensures HoldsAll(e, Given(c1) + Given(c2)) <==> InWindow(e, q) {
      HoldsAllAppend(e, Given(c1), Given(c2));
      HoldsAllGiven(e, c1);
      HoldsAllGiven(e, c2);
    }
    KeepAllAgreesWindow(events, Given(c1) + Given(c2), q);
  }

  /** What the selection keeps: a subsequence of the listing holding exactly
      the listed events that match. */
  lemma {:induction false} SelectMembers(s: seq<Event>, q: EventQuery)
    ensures forall e :: e in Select(s, q) <==> e in s && Matches(e, q)
    ensures IsSubsequence(Select(s, q), s)
    ensures |Select(s, q)| <= |s|
    decreases |s|
  {
    if s != [] {
      SelectMembers(s[1..], q);
      var r := Select(s, q);
      if Matches(s[0], q) {
        assert r[0] == s[0] && r[1..] == Select(s[1..], q);
        assert IsSubsequence(r[1..], s[1..]);
      } else {
        assert r == Select(s[1..], q);
        assert IsSubsequence(r, s[1..]);
      }
      assert s == [s[0]] + s[1..];
    }
  }

  lemma {:induction false} SelectWindowMembers(s: seq<Event>, q: TimeQuery)
    ensures forall e :: e in SelectWindow(s, q) <==> e in s && InWindow(e, q)
    ensures IsSubsequence(SelectWindow(s, q), s)
    decreases |s|
  {
    if s != [] {
      SelectWindowMembers(s[1..], q);
      var r := SelectWindow(s, q);
      if InWindow(s[0], q) {
        assert r[0] == s[0] && r[1..] == SelectWindow(s[1..], q);
        assert IsSubsequence(r[1..], s[1..]);
      } else {
        assert r == SelectWindow(s[1..], q);
        assert IsSubsequence(r, s[1..]);
      }
      assert s == [s[0]] + s[1..];
    }
  }

  /** With no field given, `filter_events` returns the listing unchanged. */
  lemma {:induction false} EmptyQueryKeepsAll(s: seq<Event>)
    ensures NarrowByQuery(s, EventQuery(None, None, None, None, None, None, None)) == s
    ensures NarrowByTime(s, TimeQuery(None, None)) == s
  {
  }

  /** Filtering a sorted listing leaves it sorted. */
  lemma {:induction false} SelectKeepsOrder(s: seq<Event>, q: EventQuery)
    requires SortedByFrom(s)
    ensures SortedByFrom(Select(s, q))
    decreases |s|
  {
    if s != [] {
      assert SortedByFrom(s[1..]) by {
        forall i, j | 0 <= i < j < |s[1..]| ensures InOrder(s[1..][i], s[1..][j]) {
          assert s[1..][i] == s[i + 1] && s[1..][j] == s[j + 1];
        }
      }
      SelectKeepsOrder(s[1..], q);
      SelectMembers(s[1..], q);
      var r := Select(s, q);
      if Matches(s[0], q) {
        forall i, j | 0 <= i < j < |r| ensures InOrder(r[i], r[j]) {
          if i == 0 {
            assert r[j] == Select(s[1..], q)[j - 1];
            assert r[j] in s[1..];
          } else {
            assert r[i] == Select(s[1..], q)[i - 1] && r[j] == Select(s[1..], q)[j - 1];
          }
        }
      }
    }
  }

  // ---------------------------------------------------------------------------
  // The store-level functions

  /** `filter_events(query)`: `get_all_events`, then the narrowing steps. */
  method FilterEvents(db: EventTable, q: EventQuery, fault: Fault) returns (r: Result<seq<Event>, DbError>, ghost raw: seq<Event>)
    requires db.Valid()
    ensures Breaks(fault, 0) ==> r == Failure(DbError)
    ensures !Breaks(fault, 0) ==> Enumerates(raw, db.rows) && r == Success(Select(SortByFrom(raw), q))
  {
    var all;
    all, raw := db.GetAllEvents(fault);
    if all.Failure? {
      return Failure(all.error), raw;
    }
    var events := all.value;
    events := Narrow(events, ColumnStep(Department, q.department));
    events := Narrow(events, ColumnStep(ClassName, q.className));
    events := Narrow(events, ColumnStep(Subject, q.subject));
    events := Narrow(events, ColumnStep(Teacher, q.teacher));
    events := Narrow(events, ColumnStep(Room, q.room));
    events := Narrow(events, ColumnStep(Building, q.building));
    events := Narrow(events, VisibleStep(q));
    NarrowByQueryIsSelect(all.value, q);
    r := Success(events);
  }

  /** `filter_events_by_time(query)`: `get_all_events`, then the two bounds. */
  method FilterEventsByTime(db: EventTable, q: TimeQuery, fault: Fault) returns (r: Result<seq<Event>, DbError>, ghost raw: seq<Event>)
    requires db.Valid()
    ensures Breaks(fault, 0) ==> r == Failure(DbError)
    ensures !Breaks(fault, 0) ==> Enumerates(raw, db.rows) && r == Success(SelectWindow(SortByFrom(raw), q))
  {
    var all;
    all, raw := db.GetAllEvents(fault);
    if all.Failure? {
      return Failure(all.error), raw;
    }
    var events := all.value;
    if q.fromDatetime.Some? {
      events := Keep(events, StartsAtOrAfter(q.fromDatetime.value));
    }
    if q.toDatetime.Some? {
      events := Keep(events, EndsAtOrBefore(q.toDatetime.value));
    }
    NarrowByTimeIsSelect(all.value, q);
    r := Success(events);
  }
}
