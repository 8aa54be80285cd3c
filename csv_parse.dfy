/** The CSV import of src/csv_parse.rs: a parser object that first loads the
    export's decoded text with line breaks inside double quotes removed, then
    turns every data row into an `Event`, all rows or none. */
module CsvParse {
  import opened Basics
  import opened Text
  import opened Types
  import opened ChronoParse

  // ---------------------------------------------------------------------------
  // Cleaning: line breaks inside double quotes are dropped

  predicate IsBreak(c: char) {
    c == '\r' || c == '\n'
  }

  /** The cleaning scan of `read_file` started in quote state `inQuotes`: every
      `"` is kept and flips the state, CR and LF are dropped while inside quotes,
      and every other character is kept. */
  function Cleaned(s: string, inQuotes: bool): string
    decreases |s|
  {
    if s == [] then []
    else if s[0] == '"' then ['"'] + Cleaned(s[1..], !inQuotes)
    else if inQuotes && IsBreak(s[0]) then Cleaned(s[1..], inQuotes)
    else [s[0]] + Cleaned(s[1..], inQuotes)
  }

  /** No CR or LF stands inside a quoted region (scanning from quote state `inQuotes`). */
  predicate NoQuotedBreaks(s: string, inQuotes: bool)
    decreases |s|
  {
    if s == [] then true
    else if s[0] == '"' then NoQuotedBreaks(s[1..], !inQuotes)
    else !(inQuotes && IsBreak(s[0])) && NoQuotedBreaks(s[1..], inQuotes)
  }

  /** The text with every CR and LF erased, wherever it stands. */
  function EraseBreaks(s: string): (r: string)
    ensures forall i | 0 <= i < |r| :: !IsBreak(r[i])
    decreases |s|
  {
    if s == [] then []
    else if IsBreak(s[0]) then EraseBreaks(s[1..])
    else [s[0]] + EraseBreaks(s[1..])
  }

  lemma {:induction false} CleanedHasNoQuotedBreaks(s: string, q: bool)
    ensures NoQuotedBreaks(Cleaned(s, q), q)
    decreases |s|
  {
    if s != [] {
      if s[0] == '"' {
        CleanedHasNoQuotedBreaks(s[1..], !q);
        assert (['"'] + Cleaned(s[1..], !q))[1..] == Cleaned(s[1..], !q);
      } else if q && IsBreak(s[0]) {
        CleanedHasNoQuotedBreaks(s[1..], q);
      } else {
        CleanedHasNoQuotedBreaks(s[1..], q);
        assert ([s[0]] + Cleaned(s[1..], q))[1..] == Cleaned(s[1..], q);
      }
    }
  }

  lemma {:induction false} CleanedKeepsBreakFree(s: string, q: bool)
    requires NoQuotedBreaks(s, q)
    ensures Cleaned(s, q) == s
    decreases |s|
  {
    if s != [] {
      if s[0] == '"' {
        CleanedKeepsBreakFree(s[1..], !q);
      } else {
        CleanedKeepsBreakFree(s[1..], q);
      }
      assert [s[0]] + s[1..] == s;
    }
  }

  /** The cleaner leaves a text alone exactly when no line break sits inside
      quotes, and it always produces such a text; so cleaning twice is
      cleaning once. */
  lemma CleanedFixpoints(s: string)
    ensures Cleaned(s, false) == s <==> NoQuotedBreaks(s, false)
    ensures NoQuotedBreaks(Cleaned(s, false), false)
    ensures Cleaned(Cleaned(s, false), false) == Cleaned(s, false)
  {
    CleanedHasNoQuotedBreaks(s, false);
    if NoQuotedBreaks(s, false) {
      CleanedKeepsBreakFree(s, false);
    }
    CleanedKeepsBreakFree(Cleaned(s, false), false);
  }

  /** Cleaning removes nothing but CR and LF: with all line breaks erased,
      input and output are the same string (so every `"` and every other
      character survives, in order). */
  lemma {:induction false} CleanedOnlyDropsBreaks(s: string, q: bool)
    ensures EraseBreaks(Cleaned(s, q)) == EraseBreaks(s)
    decreases |s|
  {
    if s != [] {
      if s[0] == '"' {
        CleanedOnlyDropsBreaks(s[1..], !q);
        assert (['"'] + Cleaned(s[1..], !q))[1..] == Cleaned(s[1..], !q);
      } else if q && IsBreak(s[0]) {
        CleanedOnlyDropsBreaks(s[1..], q);
      } else {
        CleanedOnlyDropsBreaks(s[1..], q);
        assert ([s[0]] + Cleaned(s[1..], q))[1..] == Cleaned(s[1..], q);
      }
    }
  }

  /** A CR LF inside a quoted field is removed; the one that ends the row is kept. */
  lemma CleanedExample()
    ensures Cleaned("\"x\r\ny\"\r\nz", false) == "\"xy\"\r\nz"
  {
    var s := "\"x\r\ny\"\r\nz";
    assert Cleaned(s[8..], false) == "z";
    assert Cleaned(s[7..], false) == "\nz";
    assert Cleaned(s[6..], false) == "\r\nz";
    assert Cleaned(s[5..], true) == "\"\r\nz";
    assert Cleaned(s[4..], true) == "y\"\r\nz";
    assert Cleaned(s[3..], true) == "y\"\r\nz";
    assert Cleaned(s[2..], true) == "y\"\r\nz";
    assert Cleaned(s[1..], true) == "xy\"\r\nz";
  }

  /** The cleaning loop of `read_file`. */
  method CleanLineBreaks(text: string) returns (clean: string)
    ensures clean == Cleaned(text, false)
  {
    clean := [];
    var inQuotes := false;
    var i := 0;
    while i < |text|
      invariant 0 <= i <= |text|
      invariant clean + Cleaned(text[i..], inQuotes) == Cleaned(text, false)
    {
      var c := text[i];
      assert text[i..][0] == c && text[i..][1..] == text[i + 1..];
      if c == '"' {
        inQuotes := !inQuotes;
        clean := clean + [c];
      } else if c == '\r' && inQuotes {
      } else if c == '\n' && inQuotes {
      } else {
        clean := clean + [c];
      }
      i := i + 1;
    }
  }

  // ---------------------------------------------------------------------------
  // One data row

  /** Why a row cannot be turned into an event. `MissingField` stands for the
      panic of `unwrap` on an absent field; the others for the `Err` returned by
      chrono (dates, times) and by `u64::from_str` (the id). */
  datatype RowError = MissingField(index: nat) | BadDate(index: nat) | BadTime(index: nat) | BadId

  /** Quotes are removed first, then the row is split at `;`. */
  function Fields(line: string): seq<string> {
    SplitAt(RemoveChar(line, '"'), ';')
  }

  function Field(f: seq<string>, i: nat): Result<string, RowError> {
    if i < |f| then Success(f[i]) else Failure(MissingField(i))
  }

  function DateField(f: seq<string>, i: nat): Result<Date, RowError> {
    var s :- Field(f, i);
    match ParseDate(s)
    case Some(d) => Success(d)
    case None => Failure(BadDate(i))
  }

  function TimeField(f: seq<string>, i: nat): Result<Time, RowError> {
    var s :- Field(f, i);
    match ParseTime(s)
    case Some(t) => Success(t)
    case None => Failure(BadTime(i))
  }

  function IdField(f: seq<string>, i: nat): Result<u64, RowError> {
    var s :- Field(f, i);
    match ParseU64(s)
    case Some(n) => Success(n)
    case None => Failure(BadId)
  }

  /** The body of the row loop of `parse_contents`: the fields are read in the
      source's order, so the first offending field decides the error. Field 2
      (the weekday) is never looked at, nor is anything after field 11. */
  function ParseRow(line: string): Result<Event, RowError> {
    ParseFields(Fields(line))
  }

  /** The field-by-field reading of one row, from its split fields. */
  function ParseFields(f: seq<string>): Result<Event, RowError> {
    var fromDate :- DateField(f, 0);
    var toDate :- DateField(f, 1);
    var fromTime :- TimeField(f, 3);
    var toTime :- TimeField(f, 4);
    var room :- Field(f, 5);
    var className :- Field(f, 6);
    var subject :- Field(f, 7);
    var teacher :- Field(f, 8);
    var department :- Field(f, 9);
    var building :- Field(f, 10);
    var eventId :- IdField(f, 11);
    Success(Event(eventId, DateTime(fromDate, fromTime), DateTime(toDate, toTime),
                  department, className, subject, teacher, room, building, None, None, true))
  }

  /** The fields of a row that `parse_contents` accepts. */
  predicate WellFormedRow(f: seq<string>) {
    && |f| >= 12
    && ParseDate(f[0]).Some? && ParseDate(f[1]).Some?
    && ParseTime(f[3]).Some? && ParseTime(f[4]).Some?
    && ParseU64(f[11]).Some?
  }

  /** A row yields an event exactly when its twelve positional fields are
      well formed, and then the event carries exactly those fields, the import
      defaults `visible = true`, no modification time and no modifier. */
  lemma ParseRowCharacterised(line: string)
    ensures ParseRow(line).Success? <==> WellFormedRow(Fields(line))
    ensures ParseRow(line).Success? ==>
      var f, e := Fields(line), ParseRow(line).value;
      && e.eventId == ParseU64(f[11]).value
      && e.fromDatetime == DateTime(ParseDate(f[0]).value, ParseTime(f[3]).value)
      && e.toDatetime == DateTime(ParseDate(f[1]).value, ParseTime(f[4]).value)
      && e.room == f[5] && e.className == f[6] && e.subject == f[7]
      && e.teacher == f[8] && e.department == f[9] && e.building == f[10]
      && e.visible && e.modifiedAt == None && e.modifiedBy == None
  {
  }

  /** Two rows that agree on their first twelve fields parse alike: the
      weekday column and any surplus columns never influence the result. */
  lemma ParseRowIgnoresUnusedFields(a: string, b: string)
    requires |Fields(a)| >= 12 && |Fields(b)| >= 12
    requires forall i | 0 <= i < 12 && i != 2 :: Fields(a)[i] == Fields(b)[i]
    ensures ParseRow(a) == ParseRow(b)
  {
    var fa, fb := Fields(a), Fields(b);
    assert fa[0] == fb[0] && fa[1] == fb[1] && fa[3] == fb[3] && fa[4] == fb[4];
    assert fa[5] == fb[5] && fa[6] == fb[6] && fa[7] == fb[7] && fa[8] == fb[8];
    assert fa[9] == fb[9] && fa[10] == fb[10] && fa[11] == fb[11];
  }

  // ---------------------------------------------------------------------------
  // The whole text

  /** Line `idx` is turned into an event: not the header, and longer than one byte. */
  predicate IsDataRow(idx: nat, line: string) {
    idx > 0 && Utf8Len(line) > 1
  }

  /** The lines the row loop parses, in source order. */
  function DataRows(lines: seq<string>): seq<string>
    decreases |lines|
  {
    if lines == [] then []
    else
      var n := |lines| - 1;
      DataRows(lines[..n]) + (if IsDataRow(n, lines[n]) then [lines[n]] else [])
  }

  /** The results of `parse` on every item, in order, or the failure of the
      first item that fails. */
  function AllOrNothing<A, B, E>(xs: seq<A>, parse: A -> Result<B, E>): Result<seq<B>, E>
    decreases |xs|
  {
    if xs == [] then Success([])
    else
      var done :- AllOrNothing(xs[..|xs| - 1], parse);
      var last :- parse(xs[|xs| - 1]);
      Success(done + [last])
  }

  /** The events of the rows in order, or the error of the first row that fails. */
  function ParseRows(rows: seq<string>): Result<seq<Event>, RowError> {
    AllOrNothing(rows, ParseRow)
  }

  /** What `parse_contents` makes of a loaded text. */
  function ParseText(text: string): Result<seq<Event>, RowError> {
    ParseRows(DataRows(SplitLines(text)))
  }

  /** The lines longer than one byte, in order. */
  function LongLines(lines: seq<string>): seq<string>
    decreases |lines|
  {
    if lines == [] then []
    else (if Utf8Len(lines[0]) > 1 then [lines[0]] else []) + LongLines(lines[1..])
  }

  lemma {:induction false} LongLinesSnoc(lines: seq<string>, x: string)
    ensures LongLines(lines + [x]) == LongLines(lines) + (if Utf8Len(x) > 1 then [x] else [])
    decreases |lines|
  {
    if lines == [] {
      assert [x][1..] == [];
    } else {
      assert (lines + [x])[1..] == lines[1..] + [x];
      LongLinesSnoc(lines[1..], x);
    }
  }

  /** The row loop skips the header (line 0) and every line of at most one
      byte, and keeps all other lines in their order. */
  lemma {:induction false} DataRowsSkipHeader(lines: seq<string>)
    requires |lines| >= 1
    ensures DataRows(lines) == LongLines(lines[1..])
    decreases |lines|
  {
    var n := |lines| - 1;
    if n == 0 {
      assert DataRows(lines[..0]) == [];
    } else {
      DataRowsSkipHeader(lines[..n]);
      assert lines[..n][1..] + [lines[n]] == lines[1..];
      LongLinesSnoc(lines[..n][1..], lines[n]);
    }
  }

  lemma AllOrNothingSnoc<A, B, E>(xs: seq<A>, x: A, parse: A -> Result<B, E>)
    ensures AllOrNothing(xs + [x], parse) ==
      if AllOrNothing(xs, parse).Failure? then AllOrNothing(xs, parse)
      else if parse(x).Failure? then Failure(parse(x).error)
      else Success(AllOrNothing(xs, parse).value + [parse(x).value])
  {
    assert (xs + [x])[..|xs|] == xs;
  }

  lemma {:induction false} AllOrNothingCharacterised<A, B, E>(xs: seq<A>, parse: A -> Result<B, E>)
    ensures AllOrNothing(xs, parse).Success? <==> forall i | 0 <= i < |xs| :: parse(xs[i]).Success?
    ensures AllOrNothing(xs, parse).Success? ==>
      |AllOrNothing(xs, parse).value| == |xs|
      && forall i | 0 <= i < |xs| :: AllOrNothing(xs, parse).value[i] == parse(xs[i]).value
    decreases |xs|
  {
    if xs != [] {
      var n := |xs| - 1;
      var init := xs[..n];
      AllOrNothingCharacterised(init, parse);
      assert init + [xs[n]] == xs;
      AllOrNothingSnoc(init, xs[n], parse);
      assert forall i | 0 <= i < n :: init[i] == xs[i];
    }
  }

  lemma {:induction false} AllOrNothingFailurePersists<A, B, E>(xs: seq<A>, k: nat, parse: A -> Result<B, E>)
    requires k <= |xs|
    requires AllOrNothing(xs[..k], parse).Failure?
    ensures AllOrNothing(xs, parse) == AllOrNothing(xs[..k], parse)
    decreases |xs|
  {
    if k < |xs| {
      var n := |xs| - 1;
      assert xs[..n][..k] == xs[..k];
      AllOrNothingFailurePersists(xs[..n], k, parse);
    } else {
      assert xs[..k] == xs;
    }
  }

  lemma ParseRowsSnoc(rows: seq<string>, x: string)
    ensures ParseRows(rows + [x]) ==
      if ParseRows(rows).Failure? then ParseRows(rows)
      else if ParseRow(x).Failure? then Failure(ParseRow(x).error)
      else Success(ParseRows(rows).value + [ParseRow(x).value])
  {
    AllOrNothingSnoc(rows, x, ParseRow);
  }

  /** All or nothing: the rows yield events exactly when every row does, and
      then there is one event per row, in row order. */
  lemma ParseRowsAllOrNothing(rows: seq<string>)
    ensures ParseRows(rows).Success? <==> forall i | 0 <= i < |rows| :: ParseRow(rows[i]).Success?
    ensures ParseRows(rows).Success? ==>
      |ParseRows(rows).value| == |rows|
      && forall i | 0 <= i < |rows| :: ParseRows(rows).value[i] == ParseRow(rows[i]).value
  {
    AllOrNothingCharacterised(rows, ParseRow);
  }

  /** A failure remains the outcome once more rows follow. */
  lemma ParseRowsFailurePersists(rows: seq<string>, k: nat)
    requires k <= |rows|
    requires ParseRows(rows[..k]).Failure?
    ensures ParseRows(rows) == ParseRows(rows[..k])
  {
    AllOrNothingFailurePersists(rows, k, ParseRow);
  }

  lemma {:induction false} DataRowsPrefix(lines: seq<string>, k: nat)
    requires k <= |lines|
    ensures |DataRows(lines[..k])| <= |DataRows(lines)|
    ensures DataRows(lines)[..|DataRows(lines[..k])|] == DataRows(lines[..k])
    decreases |lines|
  {
    if k < |lines| {
      var n := |lines| - 1;
      assert lines[..n][..k] == lines[..k];
      DataRowsPrefix(lines[..n], k);
    } else {
      assert lines[..k] == lines;
    }
  }

  lemma DataRowsStep(lines: seq<string>, idx: nat)
    requires idx < |lines|
    ensures DataRows(lines[..idx + 1]) ==
      DataRows(lines[..idx]) + (if IsDataRow(idx, lines[idx]) then [lines[idx]] else [])
  {
    assert lines[..idx + 1][..idx] == lines[..idx];
  }

  /** One iteration of the row loop: a skipped line changes nothing, a row
      that parses extends the events, and a row that fails decides the outcome
      of the whole text. */
  lemma ParseLinesStep(lines: seq<string>, idx: nat, events: seq<Event>)
    requires idx < |lines|
    requires ParseRows(DataRows(lines[..idx])) == Success(events)
    ensures !IsDataRow(idx, lines[idx]) ==> ParseRows(DataRows(lines[..idx + 1])) == Success(events)
    ensures IsDataRow(idx, lines[idx]) && ParseRow(lines[idx]).Success? ==>
      ParseRows(DataRows(lines[..idx + 1])) == Success(events + [ParseRow(lines[idx]).value])
    ensures IsDataRow(idx, lines[idx]) && ParseRow(lines[idx]).Failure? ==>
      ParseRows(DataRows(lines)) == Failure(ParseRow(lines[idx]).error)
  {
    var line, done := lines[idx], DataRows(lines[..idx]);
    DataRowsStep(lines, idx);
    if IsDataRow(idx, line) {
      assert DataRows(lines[..idx + 1]) == done + [line];
      ParseRowsSnoc(done, line);
      if ParseRow(line).Failure? {
        DataRowsPrefix(lines, idx + 1);
        ParseRowsFailurePersists(DataRows(lines), |DataRows(lines[..idx + 1])|);
      }
    } else {
      assert DataRows(lines[..idx + 1]) == done + [];
      assert done + [] == done;
    }
  }

  /** The row loop of `parse_contents`: it pushes one event per data row and
      stops at the first row that fails. */
  method ParseLines(text: string) returns (r: Result<seq<Event>, RowError>)
    ensures r == ParseText(text)
  {
    var lines := SplitLines(text);
    var events: seq<Event> := [];
    var idx := 0;
    while idx < |lines|
      invariant 0 <= idx <= |lines|
      invariant ParseRows(DataRows(lines[..idx])) == Success(events)
    {
      var line := lines[idx];
      ParseLinesStep(lines, idx, events);
      if IsDataRow(idx, line) {
        var row := ParseRow(line);
        if row.Failure? {
          return Failure(row.error);
        }
        events := events + [row.value];
      }
      idx := idx + 1;
    }
    assert lines[..idx] == lines;
    r := Success(events);
  }

  // ---------------------------------------------------------------------------
  // The parser object

  /** The export file as the operating system hands it over: unreadable (open
      or read failed), or readable, already decoded to text by the encoding. */
  datatype FileInput = Unreadable | Readable(decoded: string)

  /** The `anyhow::Error` values `read_file` and `parse_contents` return: an
      I/O failure, a row that cannot be parsed, or an error built from a fixed
      message. */
  datatype ImportError = IoError | RowFailure(row: RowError) | Message(text: string)

  const INVALID_ENCODING: string := "Invalid encoding specified."
  const NO_TEXT_LOADED: string := "No text loaded."

  /** `CSVParser`: the configured encoding label and path, then the loaded
      text and the parsed events, each absent until a call succeeds. */
  class CsvParser {
    const encoding: string
    const sourcePath: string
    var contents: Option<string>
    var parsedEvents: Option<seq<Event>>

    /** `CSVParser::new`. */
    constructor (encoding: string, path: string)
      ensures this.encoding == encoding && sourcePath == path
      ensures contents == None && parsedEvents == None
    {
      this.encoding := encoding;
      sourcePath := path;
      contents := None;
      parsedEvents := None;
    }

    /** `get_events`. */
    function GetEvents(): Option<seq<Event>>
      reads this
    {
      parsedEvents
    }

    /** `read_file`: `labelKnown` says whether the encoding label names an
        encoding; the file is opened and read before the label is looked at. */
    method ReadFile(file: FileInput, labelKnown: bool) returns (r: Result<(), ImportError>)
      modifies this`contents
      ensures file.Unreadable? ==> r == Failure(IoError) && contents == old(contents)
      ensures file.Readable? && !labelKnown ==> r == Failure(Message(INVALID_ENCODING)) && contents == old(contents)
      ensures file.Readable? && labelKnown ==> r == Success(()) && contents == Some(Cleaned(file.decoded, false))
    {
      if file.Unreadable? {
        return Failure(IoError);
      }
      if !labelKnown {
        return Failure(Message(INVALID_ENCODING));
      }
      var clean := CleanLineBreaks(file.decoded);
      contents := Some(clean);
      r := Success(());
    }

    /** `parse_contents`: `parsedEvents` is assigned only when every row parsed. */
    method ParseContents() returns (r: Result<(), ImportError>)
      modifies this`parsedEvents
      ensures contents.None? ==> r == Failure(Message(NO_TEXT_LOADED)) && parsedEvents == old(parsedEvents)
      ensures contents.Some? && ParseText(contents.value).Success? ==>
        r == Success(()) && parsedEvents == Some(ParseText(contents.value).value)
      ensures contents.Some? && ParseText(contents.value).Failure? ==>
        r == Failure(RowFailure(ParseText(contents.value).error)) && parsedEvents == old(parsedEvents)
    {
      if contents.None? {
        return Failure(Message(NO_TEXT_LOADED));
      }
      var parsed := ParseLines(contents.value);
      if parsed.Failure? {
        return Failure(RowFailure(parsed.error));
      }
      parsedEvents := Some(parsed.value);
      r := Success(());
    }
  }

  /** A parser whose first parse fails still has no events to hand out. */
  method FailedFirstParse(file: FileInput) returns (events: Option<seq<Event>>)
    ensures file.Unreadable? ==> events == None
    ensures file.Readable? && ParseText(Cleaned(file.decoded, false)).Failure? ==> events == None
    ensures file.Readable? && ParseText(Cleaned(file.decoded, false)).Success? ==>
      events == Some(ParseText(Cleaned(file.decoded, false)).value)
  {
    var parser := new CsvParser("latin1", "./input_files/Infopanel_new.csv");
    var read := parser.ReadFile(file, true);
    var parsed := parser.ParseContents();
    events := parser.GetEvents();
  }
}
