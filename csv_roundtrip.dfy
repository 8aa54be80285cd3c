/** The export format that src/csv_parse.rs reads, written out: every field in
    double quotes, fields separated by `;`, rows by CR LF, a header line first.
    The import turns such a file back into exactly the events it was made
    from, which pins down what `read_file` and `parse_contents` accept. */
module CsvRoundTrip {
  import opened Basics
  import opened Text
  import opened Types
  import opened ChronoParse
  import opened CsvParse

  /** A text field the export can carry unchanged: no separator, no quote,
      no line break. */
  predicate PlainText(s: string) {
    forall i | 0 <= i < |s| :: s[i] != ';' && s[i] != '"' && !IsBreak(s[i])
  }

  /** No CR and no LF anywhere. */
  predicate NoBreaks(s: string) {
    forall i | 0 <= i < |s| :: !IsBreak(s[i])
  }

  /** An event the export writes without loss: calendar dates with four-digit
      years, times on whole minutes, plain text fields, and the provenance
      defaults every imported event carries. */
  predicate Exportable(e: Event) {
    && ValidDate(e.fromDatetime.date) && 0 <= e.fromDatetime.date.year < 10000
    && ValidDate(e.toDatetime.date) && 0 <= e.toDatetime.date.year < 10000
    && ValidTime(e.fromDatetime.time) && e.fromDatetime.time.second == 0
    && ValidTime(e.toDatetime.time) && e.toDatetime.time.second == 0
    && PlainText(e.room) && PlainText(e.className) && PlainText(e.subject)
    && PlainText(e.teacher) && PlainText(e.department) && PlainText(e.building)
    && e.visible && e.modifiedAt == None && e.modifiedBy == None
  }

  function Quote(s: string): string {
    "\"" + s + "\""
  }

  function Quoted(pieces: seq<string>): (r: seq<string>)
    ensures |r| == |pieces|
    decreases |pieces|
  {
    if pieces == [] then [] else [Quote(pieces[0])] + Quoted(pieces[1..])
  }

  /** The twelve columns of a row, in the order the import reads them. */
  function RowFields(e: Event, weekday: string): seq<string>
    requires Exportable(e)
  {
    [FormatDate(e.fromDatetime.date), FormatDate(e.toDatetime.date), weekday,
     FormatTime(e.fromDatetime.time), FormatTime(e.toDatetime.time),
     e.room, e.className, e.subject, e.teacher, e.department, e.building,
     Decimal(e.eventId)]
  }

  /** One exported row. */
  function RenderRow(e: Event, weekday: string): string
    requires Exportable(e)
  {
    Join(Quoted(RowFields(e, weekday)), ";")
  }

  function RenderRows(events: seq<Event>, weekdays: seq<string>): (r: seq<string>)
    requires |weekdays| == |events|
    requires forall i | 0 <= i < |events| :: Exportable(events[i])
  {
    seq(|events|, i requires 0 <= i < |events| => RenderRow(events[i], weekdays[i]))
  }

  /** A whole export: the header, one row per event, and a final CR LF. */
  function RenderFile(header: string, events: seq<Event>, weekdays: seq<string>): string
    requires |weekdays| == |events|
    requires forall i | 0 <= i < |events| :: Exportable(events[i])
  {
    Join([header] + RenderRows(events, weekdays) + [""], "\r\n")
  }

  // ---------------------------------------------------------------------------
  // Quote removal

  lemma {:induction false} RemoveCharConcat(a: string, b: string, c: char)
    ensures RemoveChar(a + b, c) == RemoveChar(a, c) + RemoveChar(b, c)
    decreases |a|
  {
    if a != [] {
      assert (a + b)[1..] == a[1..] + b;
      RemoveCharConcat(a[1..], b, c);
    } else {
      assert a + b == b;
    }
  }

  lemma {:induction false} RemoveCharAbsent(s: string, c: char)
    requires c !in s
    ensures RemoveChar(s, c) == s
    decreases |s|
  {
    if s != [] {
      RemoveCharAbsent(s[1..], c);
      assert [s[0]] + s[1..] == s;
    }
  }

  lemma RemoveQuotes(p: string)
    requires '"' !in p
    ensures RemoveChar(Quote(p), '"') == p
  {
    RemoveCharConcat("\"" + p, "\"", '"');
    RemoveCharConcat("\"", p, '"');
    RemoveCharAbsent(p, '"');
  }

  lemma {:induction false} RemoveQuotesJoin(pieces: seq<string>)
    requires forall p | p in pieces :: '"' !in p
    ensures RemoveChar(Join(Quoted(pieces), ";"), '"') == Join(pieces, ";")
    decreases |pieces|
  {
    if |pieces| == 1 {
      RemoveQuotes(pieces[0]);
    } else if |pieces| > 1 {
      var rest := pieces[1..];
      RemoveQuotesJoin(rest);
      assert Quoted(pieces) == [Quote(pieces[0])] + Quoted(rest);
      JoinCons(Quote(pieces[0]), Quoted(rest), ";");
      RemoveCharConcat(Quote(pieces[0]) + ";", Join(Quoted(rest), ";"), '"');
      RemoveCharConcat(Quote(pieces[0]), ";", '"');
      RemoveQuotes(pieces[0]);
      JoinCons(pieces[0], rest, ";");
      assert [pieces[0]] + rest == pieces;
    }
  }

  // ---------------------------------------------------------------------------
  // Splitting what was joined

  /** Splitting at a separator no piece contains recovers the pieces. */
  lemma {:induction false} SplitJoin(pieces: seq<string>, c: char)
    requires |pieces| >= 1
    requires forall p | p in pieces :: c !in p
    ensures SplitAt(Join(pieces, [c]), c) == pieces
    decreases |pieces|
  {
    if |pieces| == 1 {
      SplitAtFromPlain(pieces[0], c, []);
      assert [] + pieces[0] == pieces[0];
    } else {
      var rest := pieces[1..];
      SplitJoin(rest, c);
      JoinCons(pieces[0], rest, [c]);
      assert [pieces[0]] + rest == pieces;
      SplitAtFromConcat(pieces[0], c, Join(rest, [c]), []);
      assert [] + pieces[0] == pieces[0];
    }
  }

  lemma {:induction false} SplitLinesFromConcat(a: string, b: string, cur: string)
    requires !HasCrLf(cur + a)
    ensures SplitLinesFrom(a + "\r\n" + b, cur) == [cur + a] + SplitLinesFrom(b, [])
    decreases |a|
  {
    var s := a + "\r\n" + b;
    if a == [] {
      assert s[2..] == b;
      assert cur + a == cur;
    } else {
      var longer := cur + a;
      if |a| >= 2 {
        assert longer[|cur|] == s[0] && longer[|cur| + 1] == s[1];
      } else {
        assert s[1] == '\r';
      }
      assert !StartsWithCrLf(s);
      assert s[1..] == a[1..] + "\r\n" + b;
      assert cur + [a[0]] + a[1..] == longer;
      SplitLinesFromConcat(a[1..], b, cur + [a[0]]);
    }
  }

  lemma {:induction false} SplitLinesFromPlain(a: string, cur: string)
    requires !HasCrLf(cur + a)
    ensures SplitLinesFrom(a, cur) == [cur + a]
    decreases |a|
  {
    if a == [] {
      assert cur + a == cur;
    } else {
      var longer := cur + a;
      if |a| >= 2 {
        assert longer[|cur|] == a[0] && longer[|cur| + 1] == a[1];
      }
      assert !StartsWithCrLf(a);
      assert cur + [a[0]] + a[1..] == longer;
      SplitLinesFromPlain(a[1..], cur + [a[0]]);
    }
  }

  /** Splitting at CR LF recovers lines none of which holds CR LF. */
  lemma {:induction false} SplitLinesJoin(lines: seq<string>)
    requires |lines| >= 1
    requires forall l | l in lines :: !HasCrLf(l)
    ensures SplitLines(Join(lines, "\r\n")) == lines
    decreases |lines|
  {
    assert [] + lines[0] == lines[0];
    if |lines| == 1 {
      SplitLinesFromPlain(lines[0], []);
    } else {
      var rest := lines[1..];
      SplitLinesJoin(rest);
      JoinCons(lines[0], rest, "\r\n");
      assert [lines[0]] + rest == lines;
      SplitLinesFromConcat(lines[0], Join(rest, "\r\n"), []);
    }
  }

  // ---------------------------------------------------------------------------
  // The cleaner leaves an export alone

  /** The quote state after scanning `s` from state `q`. */
  function QuoteState(s: string, q: bool): bool
    decreases |s|
  {
    if s == [] then q
    else QuoteState(s[1..], if s[0] == '"' then !q else q)
  }

  /** Scanned from outside quotes, `s` has no break inside quotes and ends outside quotes. */
  predicate Settled(s: string) {
    NoQuotedBreaks(s, false) && !QuoteState(s, false)
  }

  lemma {:induction false} ScanConcat(a: string, b: string, q: bool)
    ensures QuoteState(a + b, q) == QuoteState(b, QuoteState(a, q))
    ensures NoQuotedBreaks(a + b, q) == (NoQuotedBreaks(a, q) && NoQuotedBreaks(b, QuoteState(a, q)))
    decreases |a|
  {
    if a == [] {
      assert a + b == b;
    } else {
      assert (a + b)[1..] == a[1..] + b;
      ScanConcat(a[1..], b, if a[0] == '"' then !q else q);
    }
  }

  lemma SettledConcat(a: string, b: string)
    requires Settled(a) && Settled(b)
    ensures Settled(a + b)
  {
    ScanConcat(a, b, false);
  }

  lemma {:induction false} NoQuoteScan(s: string, q: bool)
    requires '"' !in s
    ensures QuoteState(s, q) == q
    ensures !q ==> NoQuotedBreaks(s, q)
    ensures NoBreaks(s) ==> NoQuotedBreaks(s, q)
    decreases |s|
  {
    if s != [] {
      NoQuoteScan(s[1..], q);
    }
  }

  lemma QuoteSettled(p: string)
    requires '"' !in p && NoBreaks(p)
    ensures Settled(Quote(p))
  {
    NoQuoteScan(p, true);
    ScanConcat("\"" + p, "\"", false);
    ScanConcat("\"", p, false);
  }

  lemma {:induction false} JoinSettled(pieces: seq<string>, sep: string)
    requires Settled(sep)
    requires forall p | p in pieces :: Settled(p)
    ensures Settled(Join(pieces, sep))
    decreases |pieces|
  {
    if |pieces| == 0 {
    } else if |pieces| > 1 {
      var rest := pieces[1..];
      JoinSettled(rest, sep);
      JoinCons(pieces[0], rest, sep);
      assert [pieces[0]] + rest == pieces;
      SettledConcat(pieces[0], sep);
      SettledConcat(pieces[0] + sep, Join(rest, sep));
    }
  }

  // ---------------------------------------------------------------------------
  // Characters of a rendered row

  lemma NoBreaksConcat(a: string, b: string)
    requires NoBreaks(a) && NoBreaks(b)
    ensures NoBreaks(a + b)
  {
    forall i | 0 <= i < |a + b| ensures !IsBreak((a + b)[i]) {
      if i >= |a| {
        assert (a + b)[i] == b[i - |a|];
      }
    }
  }

  lemma {:induction false} JoinNoBreaks(pieces: seq<string>, sep: string)
    requires NoBreaks(sep)
    requires forall p | p in pieces :: NoBreaks(p)
    ensures NoBreaks(Join(pieces, sep))
    decreases |pieces|
  {
    if |pieces| > 1 {
      var rest := pieces[1..];
      JoinNoBreaks(rest, sep);
      JoinCons(pieces[0], rest, sep);
      assert [pieces[0]] + rest == pieces;
      NoBreaksConcat(pieces[0], sep);
      NoBreaksConcat(pieces[0] + sep, Join(rest, sep));
    }
  }

  lemma {:induction false} QuotedMembers(pieces: seq<string>)
    requires forall p | p in pieces :: PlainText(p)
    ensures forall p | p in Quoted(pieces) :: |p| >= 2 && Settled(p) && NoBreaks(p)
    decreases |pieces|
  {
    if pieces != [] {
      QuotedMembers(pieces[1..]);
      var p := pieces[0];
      assert PlainText(p);
      assert '"' !in p by {
        forall i | 0 <= i < |p| ensures p[i] != '"' { }
      }
      NoBreaksConcat("\"", p);
      NoBreaksConcat("\"" + p, "\"");
      QuoteSettled(p);
    }
  }

  lemma DigitsArePlain(s: string)
    requires AllDigits(s)
    ensures PlainText(s)
  {
    forall i | 0 <= i < |s| ensures s[i] != ';' && s[i] != '"' && !IsBreak(s[i]) {
      assert IsDigit(s[i]);
    }
  }

  lemma PlainConcat(a: string, b: string)
    requires PlainText(a) && PlainText(b)
    ensures PlainText(a + b)
  {
    forall i | 0 <= i < |a + b| ensures (a + b)[i] != ';' && (a + b)[i] != '"' && !IsBreak((a + b)[i]) {
      if i >= |a| {
        assert (a + b)[i] == b[i - |a|];
      } else {
        assert (a + b)[i] == a[i];
      }
    }
  }

  lemma FormatDateIsPlain(d: Date)
    requires 0 <= d.year && 0 <= d.month && 0 <= d.day
    ensures PlainText(FormatDate(d))
  {
    var a, b, y := Padded(d.day, 2), Padded(d.month, 2), Padded(d.year, 4);
    DigitsArePlain(a);
    DigitsArePlain(b);
    DigitsArePlain(y);
    assert PlainText(".");
    PlainConcat(a, ".");
    PlainConcat(a + ".", b);
    PlainConcat(a + "." + b, ".");
    PlainConcat(a + "." + b + ".", y);
  }

  lemma FormatTimeIsPlain(t: Time)
    requires 0 <= t.hour && 0 <= t.minute
    ensures PlainText(FormatTime(t))
  {
    var h, m := Padded(t.hour, 2), Padded(t.minute, 2);
    DigitsArePlain(h);
    DigitsArePlain(m);
    assert PlainText(":");
    PlainConcat(h, ":");
    PlainConcat(h + ":", m);
  }

  lemma FormattedArePlain(e: Event, weekday: string)
    requires Exportable(e) && PlainText(weekday)
    ensures forall p | p in RowFields(e, weekday) :: PlainText(p)
  {
    FormatDateIsPlain(e.fromDatetime.date);
    FormatDateIsPlain(e.toDatetime.date);
    FormatTimeIsPlain(e.fromDatetime.time);
    FormatTimeIsPlain(e.toDatetime.time);
    DigitsArePlain(Decimal(e.eventId));
  }

  /** The row's fields, as `parse_contents` sees them after quote removal. */
  lemma FieldsOfRenderRow(e: Event, weekday: string)
    requires Exportable(e) && PlainText(weekday)
    ensures Fields(RenderRow(e, weekday)) == RowFields(e, weekday)
  {
    var f := RowFields(e, weekday);
    FormattedArePlain(e, weekday);
    RemoveQuotesJoin(f);
    SplitJoin(f, ';');
  }

  lemma RenderRowShape(e: Event, weekday: string)
    requires Exportable(e) && PlainText(weekday)
    ensures NoBreaks(RenderRow(e, weekday)) && Settled(RenderRow(e, weekday))
    ensures |RenderRow(e, weekday)| >= 2
  {
    var f := RowFields(e, weekday);
    FormattedArePlain(e, weekday);
    QuotedMembers(f);
    NoQuoteScan(";", false);
    JoinNoBreaks(Quoted(f), ";");
    JoinSettled(Quoted(f), ";");
    JoinCons(Quoted(f)[0], Quoted(f)[1..], ";");
    assert [Quoted(f)[0]] + Quoted(f)[1..] == Quoted(f);
  }

  // ---------------------------------------------------------------------------
  // The round trips

  /** Twelve positional fields that read as the parts of `e` parse to `e`. */
  lemma ParseFieldsOfParts(f: seq<string>, e: Event)
    requires |f| >= 12
    requires ParseDate(f[0]) == Some(e.fromDatetime.date)
    requires ParseDate(f[1]) == Some(e.toDatetime.date)
    requires ParseTime(f[3]) == Some(e.fromDatetime.time)
    requires ParseTime(f[4]) == Some(e.toDatetime.time)
    requires f[5] == e.room && f[6] == e.className && f[7] == e.subject
    requires f[8] == e.teacher && f[9] == e.department && f[10] == e.building
    requires ParseU64(f[11]) == Some(e.eventId)
    requires e.visible && e.modifiedAt == None && e.modifiedBy == None
    ensures ParseFields(f) == Success(e)
  {
  }

  /** The fields the export writes for `e` read back as `e`. */
  lemma ParseRowFields(e: Event, weekday: string)
    requires Exportable(e)
    ensures ParseFields(RowFields(e, weekday)) == Success(e)
  {
    RowFieldsAre(e, weekday);
    ParseFormatDate(e.fromDatetime.date);
    ParseFormatDate(e.toDatetime.date);
    ParseFormatTime(e.fromDatetime.time);
    ParseFormatTime(e.toDatetime.time);
    ParseU64OfDecimal(e.eventId);
    ParseFieldsOfParts(RowFields(e, weekday), e);
  }

  /** The twelve columns of an exported row, one by one. */
  lemma RowFieldsAre(e: Event, weekday: string)
    requires Exportable(e)
    ensures var f := RowFields(e, weekday);
      && |f| == 12
      && f[0] == FormatDate(e.fromDatetime.date) && f[1] == FormatDate(e.toDatetime.date)
      && f[3] == FormatTime(e.fromDatetime.time) && f[4] == FormatTime(e.toDatetime.time)
      && f[5] == e.room && f[6] == e.className && f[7] == e.subject
      && f[8] == e.teacher && f[9] == e.department && f[10] == e.building
      && f[11] == Decimal(e.eventId)
  {
  }

  /** A rendered row reads back as the very event it was rendered from,
      whatever its weekday column says. */
  lemma ParseRenderRow(e: Event, weekday: string)
    requires Exportable(e) && PlainText(weekday)
    ensures ParseRow(RenderRow(e, weekday)) == Success(e)
  {
    FieldsOfRenderRow(e, weekday);
    ParseRowFields(e, weekday);
  }

  lemma {:induction false} LongLinesAllLong(lines: seq<string>)
    requires forall l | l in lines :: |l| >= 2
    ensures LongLines(lines) == lines
    decreases |lines|
  {
    if lines != [] {
      LongLinesAllLong(lines[1..]);
      assert [lines[0]] + lines[1..] == lines;
    }
  }

  lemma ParseRowsOf(rows: seq<string>, events: seq<Event>)
    requires |rows| == |events|
    requires forall i | 0 <= i < |rows| :: ParseRow(rows[i]) == Success(events[i])
    ensures ParseRows(rows) == Success(events)
  {
    ParseRowsAllOrNothing(rows);
    var v := ParseRows(rows).value;
    assert forall i | 0 <= i < |rows| :: v[i] == events[i];
    assert v == events;
  }

  lemma FileLinesSettled(header: string, rows: seq<string>)
    requires PlainText(header)
    requires forall i | 0 <= i < |rows| :: NoBreaks(rows[i]) && Settled(rows[i])
    ensures forall l | l in [header] + rows + [""] :: Settled(l) && NoBreaks(l)
  {
    assert '"' !in header by {
      forall i | 0 <= i < |header| ensures header[i] != '"' { }
    }
    NoQuoteScan(header, false);
    NoQuoteScan("", false);
    assert Settled(header) && NoBreaks(header) && Settled("") && NoBreaks("");
    forall l | l in [header] + rows + [""] ensures Settled(l) && NoBreaks(l) {
      if l in rows {
        var i :| 0 <= i < |rows| && rows[i] == l;
      }
    }
  }

  /** Lines without breaks between CR LF separators, around a header
      without quotes, pass the cleaner unchanged. */
  lemma CleanerKeepsLines(header: string, rows: seq<string>)
    requires PlainText(header)
    requires forall i | 0 <= i < |rows| :: NoBreaks(rows[i]) && Settled(rows[i])
    ensures Cleaned(Join([header] + rows + [""], "\r\n"), false) == Join([header] + rows + [""], "\r\n")
  {
    var lines := [header] + rows + [""];
    NoQuoteScan("\r\n", false);
    FileLinesSettled(header, rows);
    JoinSettled(lines, "\r\n");
    CleanedKeepsBreakFree(Join(lines, "\r\n"), false);
  }

  /** The rows the line loop parses are exactly those between the header and
      the empty last line. */
  lemma DataRowsOfLines(header: string, rows: seq<string>)
    requires PlainText(header)
    requires forall i | 0 <= i < |rows| :: NoBreaks(rows[i]) && |rows[i]| >= 2
    ensures DataRows(SplitLines(Join([header] + rows + [""], "\r\n"))) == rows
  {
    var lines := [header] + rows + [""];
    forall l | l in lines ensures !HasCrLf(l) {
      assert NoBreaks(l);
    }
    SplitLinesJoin(lines);
    DataRowsSkipHeader(lines);
    assert lines[1..] == rows + [""];
    LongLinesSnoc(rows, "");
    forall l | l in rows ensures |l| >= 2 { }
    LongLinesAllLong(rows);
  }

  /** The text-level half of the file round trip: such a file survives the
      cleaner, and the rows between header and final empty line are parsed. */
  lemma ImportLines(header: string, rows: seq<string>, events: seq<Event>)
    requires PlainText(header)
    requires |rows| == |events|
    requires forall i | 0 <= i < |rows| :: NoBreaks(rows[i]) && Settled(rows[i]) && |rows[i]| >= 2
    requires forall i | 0 <= i < |rows| :: ParseRow(rows[i]) == Success(events[i])
    ensures Cleaned(Join([header] + rows + [""], "\r\n"), false) == Join([header] + rows + [""], "\r\n")
    ensures ParseText(Join([header] + rows + [""], "\r\n")) == Success(events)
  {
    CleanerKeepsLines(header, rows);
    DataRowsOfLines(header, rows);
    ParseRowsOf(rows, events);
  }

  /** Importing an export gives back exactly its events, in order: the
      cleaner changes nothing, the header and the empty last line are
      skipped, and every row parses to its event. */
  lemma ImportRenderedFile(header: string, events: seq<Event>, weekdays: seq<string>)
    requires PlainText(header)
    requires |weekdays| == |events|
    requires forall i | 0 <= i < |events| :: Exportable(events[i]) && PlainText(weekdays[i])
    ensures Cleaned(RenderFile(header, events, weekdays), false) == RenderFile(header, events, weekdays)
    ensures ParseText(RenderFile(header, events, weekdays)) == Success(events)
  {
    var rows := RenderRows(events, weekdays);
    forall i | 0 <= i < |rows|
      ensures NoBreaks(rows[i]) && Settled(rows[i]) && |rows[i]| >= 2
      ensures ParseRow(rows[i]) == Success(events[i])
    {
      RenderRowShape(events[i], weekdays[i]);
      ParseRenderRow(events[i], weekdays[i]);
    }
    ImportLines(header, rows, events);
  }

  /** The fields of a row written in the export format, after quote removal. */
  lemma FieldsOfQuotedRow(pieces: seq<string>)
    requires |pieces| >= 1
    requires forall p | p in pieces :: PlainText(p)
    ensures Fields(Join(Quoted(pieces), ";")) == pieces
  {
    forall p | p in pieces ensures '"' !in p && ';' !in p {
      assert forall i | 0 <= i < |p| :: p[i] != '"' && p[i] != ';';
    }
    RemoveQuotesJoin(pieces);
    SplitJoin(pieces, ';');
  }

  /** The fields of a sample row of a timetable export. */
  const EXAMPLE_FIELDS: seq<string> :=
    ["14.03.2024", "14.03.2024", "Thu", "08:00", "09:30", "201", "MPA22", "Math", "J. Doe", "SJS", "Building A", "555"]

  /** The sample row itself, in the export format:
      `"14.03.2024";"14.03.2024";"Thu";"08:00";"09:30";"201";"MPA22";"Math";"J. Doe";"SJS";"Building A";"555"`. */
  const EXAMPLE_ROW: string := Join(Quoted(EXAMPLE_FIELDS), ";")

  lemma ExampleFields()
    ensures Fields(EXAMPLE_ROW) == EXAMPLE_FIELDS
  {
    forall p | p in EXAMPLE_FIELDS ensures PlainText(p) { }
    FieldsOfQuotedRow(EXAMPLE_FIELDS);
  }

  /** The event the sample row describes. */
  const EXAMPLE_EVENT: Event :=
    Event(555, DateTime(Date(2024, 3, 14), Time(8, 0, 0)), DateTime(Date(2024, 3, 14), Time(9, 30, 0)),
          "SJS", "MPA22", "Math", "J. Doe", "201", "Building A", None, None, true)

  lemma ExampleExportable()
    ensures Exportable(EXAMPLE_EVENT)
  {
    var e := EXAMPLE_EVENT;
    assert PlainText(e.room) && PlainText(e.className) && PlainText(e.subject);
    assert PlainText(e.teacher) && PlainText(e.department) && PlainText(e.building);
  }

  /** The sample fields are what the export writes for that event on a Thursday. */
  lemma ExampleIsExport()
    ensures Exportable(EXAMPLE_EVENT)
    ensures EXAMPLE_FIELDS == RowFields(EXAMPLE_EVENT, "Thu")
  {
    ExampleExportable();
    var e := EXAMPLE_EVENT;
    RowFieldsAre(e, "Thu");
    assert FormatDate(e.fromDatetime.date) == "14.03.2024";
    assert FormatDate(e.toDatetime.date) == "14.03.2024";
    assert FormatTime(e.fromDatetime.time) == "08:00";
    assert FormatTime(e.toDatetime.time) == "09:30";
    assert Decimal(e.eventId) == "555";
    var f := RowFields(e, "Thu");
    assert f[2] == "Thu";
    assert forall i | 0 <= i < 12 :: f[i] == EXAMPLE_FIELDS[i];
  }

  /** The sample row of a timetable export, end to end: dates, times, the six
      text columns in their positional order, and the id. */
  lemma ExampleRow()
    ensures ParseRow(EXAMPLE_ROW) == Success(EXAMPLE_EVENT)
    ensures EXAMPLE_EVENT.room == "201" && EXAMPLE_EVENT.department == "SJS" && EXAMPLE_EVENT.eventId == 555
  {
    ExampleFields();
    ExampleIsExport();
    ParseRowFields(EXAMPLE_EVENT, "Thu");
  }
}
