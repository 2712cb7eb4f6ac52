/** The RainMan class: the rainfall series of one location, updated in place by
    setRecord and parse_data, loaded by the constructor and written by writeRecords. */
module Weathermen {
  import opened Wrappers
  import opened Calendar
  import opened Int16Text
  import opened Tokens
  import opened LineFormat
  import opened RainfallSeries
  import opened Storage

  class RainMan {
    /** XML_FILE, RECORD_FILE and OUTPUT_FILE. */
    const paths: Paths
    /** How amounts are printed and read back. */
    const format: DatumFormat
    /** records[year][month][day] = datum. */
    var records: Records
    /** What readRecords reported through Trace.Fail while the store was built, if anything. */
    var loadFailure: Option<LoadError>

    /** RainMan(location): derive the file names, then load whatever the files hold. */
    constructor (location: string, fs: FileSystem, format: DatumFormat)
      ensures paths == FileNames(location) && this.format == format
      ensures loadFailure.None? <==> Load(fs, paths, format).Ok?
      ensures loadFailure.None? ==> records == Load(fs, paths, format).value
      ensures loadFailure.Some? ==> loadFailure.value == Load(fs, paths, format).error
      ensures loadFailure.Some? && loadFailure.value.BadLine? ==>
        && paths.record in fs && fs[paths.record].Text?
        && loadFailure.value.index < |fs[paths.record].lines|
        && LoadLines(map[], fs[paths.record].lines[..loadFailure.value.index], format) == Ok(records)
      ensures loadFailure.Some? && !loadFailure.value.BadLine? ==> records == map[]
    {
      paths := FileNames(location);
      this.format := format;
      records := map[];
      new;
      loadFailure := ReadRecords(fs);
    }

    /** setRecord(year, month, day, datum), with the month created when absent (the test
        at line 54 of the original lacks its negation; see SetRecordAsWritten). When the
        month cannot be sized the call fails after the year entry has been created. */
    method SetRecord(year: int, month: int, day: int, datum: real) returns (failure: Option<CalendarError>)
      modifies this
      ensures WithRecord(old(records), year, month, day, datum).Ok? ==>
        failure == None && records == WithRecord(old(records), year, month, day, datum).value
      ensures WithRecord(old(records), year, month, day, datum).Err? ==>
        failure == Some(WithRecord(old(records), year, month, day, datum).error) && records == WithYear(old(records), year)
      ensures loadFailure == old(loadFailure)
    {
      ghost var months := MonthsOf(records, year);
      if year !in records {
        records := records[year := map[]];
      }
      if month !in records[year] {
        match LengthMonth(month, year) {
          case Err(e) =>
            return Some(e);
          case Ok(n) =>
            records := records[year := records[year][month := Zeros(n)]];
        }
      }
      var row := records[year][month];
      if HasMonth(old(records), year, month) {
        assert months[month := row] == months;
        assert old(records)[year := months] == old(records);
      }
      assert records == old(records)[year := months[month := row]];
      if day < |row| && day >= 0 {
        records := records[year := records[year][month := row[day := datum]]];
        assert records[year] == months[month := row[day := datum]];
      }
      return None;
    }

    /** parse_data(line): read year and month, check them, fill an array of exactly
        length_month amounts in token order, and add it under its year and month. */
    method ParseData(line: string) returns (failure: Option<LineError>)
      modifies this
      ensures ParseInto(old(records), line, format).Ok? ==>
        failure == None && records == ParseInto(old(records), line, format).value
      ensures ParseInto(old(records), line, format).Err? ==>
        failure == Some(ParseInto(old(records), line, format).error) && records == old(records)
      ensures loadFailure == old(loadFailure)
    {
      var read := ReadFields(line);
      if read.Err? {
        return Some(read.error);
      }
      var Line(year, month, data) := read.value;
      if year in records && month in records[year] {
        return Some(DuplicateMonth(year, month));
      }
      records := records[year := MonthsOf(records, year)[month := data]];
      return None;
    }

    /** The reading half of parse_data: split the line, read year and month, check the
        month against the calendar and the number of amounts, then read the amounts. */
    method ReadFields(line: string) returns (read: Result<Line, LineError>)
      ensures read == ParseLine(line, format)
    {
      var tokens := Split(line);
      var year, month;
      match ParseInt16(tokens[0]) {
        case Err(e) => return Err(BadYear(e));
        case Ok(y) => year := y;
      }
      if |tokens| < 2 {
        return Err(MissingMonth);
      }
      match ParseInt16(tokens[1]) {
        case Err(e) => return Err(BadMonth(e));
        case Ok(m) => month := m;
      }
      if month < 1 || |MonthNames| < month {
        return Err(MonthNotInCalendar(month));
      }
      var n;
      match LengthMonth(month, year) {
        case Err(e) => return Err(BadLength(e));
        case Ok(len) => n := len;
      }
      if |tokens| != n + 2 {
        return Err(WrongDayCount(n, |tokens| - 2));
      }
      var days := ReadDays(tokens);
      if days.Err? {
        return Err(BadDatum(days.error + 2));
      }
      return Ok(Line(year, month, days.value));
    }

    /** The loop of parse_data: a new array with one entry per token after year and month,
        entry i - 2 converted from token i, stopping at the first token that does not read. */
    method ReadDays(tokens: seq<string>) returns (days: Result<seq<real>, nat>)
      requires |tokens| >= 2
      ensures days == ParseDays(tokens[2..], format)
    {
      var data := new real[|tokens| - 2];
      ghost var rest := tokens[2..];
      for i := 2 to |tokens|
        invariant ParseDays(rest[..i - 2], format) == Ok(data[..i - 2])
      {
        ParseDaysSnoc(rest, i - 2, format);
        match format.read(tokens[i]) {
          case None =>
            ParseDaysFailurePersists(rest, i - 1, format);
            return Err(i - 2);
          case Some(v) =>
            data[i - 2] := v;
            assert data[..i - 1] == data[..i - 2] + [v];
        }
      }
      assert rest[..|tokens| - 2] == rest;
      assert data[..|tokens| - 2] == data[..];
      return Ok(data[..]);
    }

    /** readRecords(): the snapshot when the data file exists, otherwise parse_data on every
        line of the text file in order, stopping at the first failure. A failing line leaves
        the lines before it loaded. */
    method ReadRecords(fs: FileSystem) returns (failure: Option<LoadError>)
      modifies this
      ensures failure.None? <==> LoadInto(old(records), fs, paths, format).Ok?
      ensures failure.None? ==> records == LoadInto(old(records), fs, paths, format).value
      ensures failure.Some? ==> failure.value == LoadInto(old(records), fs, paths, format).error
      ensures failure.Some? && failure.value.BadLine? ==>
        && paths.data !in fs && paths.record in fs && fs[paths.record].Text?
        && failure.value.index < |fs[paths.record].lines|
        && LoadLines(old(records), fs[paths.record].lines[..failure.value.index], format) == Ok(records)
      ensures failure.Some? && !failure.value.BadLine? ==> records == old(records)
      ensures loadFailure == old(loadFailure)
    {
      if paths.data in fs {
        match fs[paths.data] {
          case Binary(snapshot) =>
            records := snapshot;
            return None;
          case Text(_) =>
            return Some(CorruptSnapshot);
        }
      }
      if paths.record !in fs {
        return Some(NoTextFile);
      }
      var lines;
      match fs[paths.record] {
        case Binary(_) => return Some(UnreadableText);
        case Text(text) => lines := text;
      }
      failure := ReadLines(lines);
    }

    /** The loop of readRecords over the text file: parse_data on each line in file order,
        stopping at the first line that fails and reporting its index. */
    method ReadLines(lines: seq<string>) returns (failure: Option<LoadError>)
      modifies this
      ensures LoadLines(old(records), lines, format).Ok? ==>
        failure == None && records == LoadLines(old(records), lines, format).value
      ensures LoadLines(old(records), lines, format).Err? ==>
        && failure == Some(LoadLines(old(records), lines, format).error)
        && failure.value.index < |lines|
        && LoadLines(old(records), lines[..failure.value.index], format) == Ok(records)
      ensures loadFailure == old(loadFailure)
    {
      ghost var start := records;
      var i := 0;
      while i < |lines|
        invariant 0 <= i <= |lines|
        invariant LoadLines(start, lines[..i], format) == Ok(records)
        invariant loadFailure == old(loadFailure)
      {
        var e := ReadLine(start, lines, i);
        if e.Some? {
          LoadLinesFailurePersists(start, lines, i + 1, format);
          return Some(BadLine(i, e.value));
        }
        i := i + 1;
      }
      assert lines[..i] == lines;
      return None;
    }

    /** One turn of readRecords' loop: parse_data on line i after lines 0..i-1 have loaded. */
    method ReadLine(ghost start: Records, lines: seq<string>, i: nat) returns (failure: Option<LineError>)
      requires i < |lines| && LoadLines(start, lines[..i], format) == Ok(records)
      modifies this
      ensures failure.None? ==> LoadLines(start, lines[..i + 1], format) == Ok(records)
      ensures failure.Some? ==>
        records == old(records) && LoadLines(start, lines[..i + 1], format) == Err(BadLine(i, failure.value))
      ensures loadFailure == old(loadFailure)
    {
      assert lines[..i + 1][..i] == lines[..i];
      LoadLinesSnoc(start, lines[..i + 1], format, records);
      failure := ParseData(lines[i]);
    }

    /** The inner loop of writeRecords for one month: "{0},{1}" with year and month, then
        ",{0}" for each amount in day order. */
    method FormatRow(year: int, month: int, days: seq<real>) returns (line: string)
      ensures line == FormatLine(year, month, days, format)
    {
      line := ShowInt(year) + "," + ShowInt(month);
      var amounts := FormatAmounts(days);
      line := line + amounts;
      FormatLineIsSuffix(year, month, days, format);
    }

    /** The innermost loop of writeRecords: ",{0}" for each amount in day order. */
    method FormatAmounts(days: seq<real>) returns (text: string)
      ensures text == DaysSuffix(days, format)
    {
      text := "";
      for i := 0 to |days|
        invariant text == DaysSuffix(days[..i], format)
      {
        assert days[..i + 1][..i] == days[..i];
        text := text + "," + format.show(days[i]);
      }
      assert days[..|days|] == days;
    }

    /** The text file writeRecords writes: one line per (year, month) present, each line
        that entry's amounts, the years and then each year's months taken in some order. */
    method CsvLines() returns (lines: seq<string>, ghost order: seq<(int, int)>)
      ensures Listing(records, order)
      ensures lines == Render(records, order, format)
    {
      lines, order := [], [];
      var years := records.Keys;
      while years != {}
        invariant years <= records.Keys
        invariant forall i, j :: 0 <= i < j < |order| ==> order[i] != order[j]
        invariant forall k :: k in order <==> HasMonth(records, k.0, k.1) && k.0 !in years
        invariant Present(records, order) && lines == Render(records, order, format)
        decreases years
      {
        NonEmptyHasElement(years);
        var year :| year in years;
        var months := records[year].Keys;
        while months != {}
          invariant months <= records[year].Keys
          invariant forall i, j :: 0 <= i < j < |order| ==> order[i] != order[j]
          invariant forall k :: k in order <==>
            HasMonth(records, k.0, k.1) && (k.0 !in years || (k.0 == year && k.1 !in months))
          invariant Present(records, order) && lines == Render(records, order, format)
          decreases months
        {
          NonEmptyHasElement(months);
          var month :| month in months;
          assert (year, month) !in order;
          lines, order := AppendRow(lines, order, year, month);
          months := months - {month};
        }
        years := years - {year};
      }
    }

    /** One step of writeRecords' loops: format the month's row and append it. */
    method AppendRow(lines: seq<string>, ghost order: seq<(int, int)>, year: int, month: int)
      returns (lines': seq<string>, ghost order': seq<(int, int)>)
      requires Present(records, order) && lines == Render(records, order, format)
      requires HasMonth(records, year, month)
      ensures order' == order + [(year, month)]
      ensures Present(records, order') && lines' == Render(records, order', format)
    {
      var line := FormatRow(year, month, records[year][month]);
      RenderSnoc(records, order, year, month, format);
      lines', order' := lines + [line], order + [(year, month)];
    }

    /** writeRecords(): back up the text file, write the snapshot, then rewrite the text
        file. The backup fails, and is reported, when there is no text file to copy. */
    method WriteRecords(fs: FileSystem) returns (fs': FileSystem, backupFailed: bool, ghost order: seq<(int, int)>)
      requires Distinct(paths)
      ensures Listing(records, order)
      ensures SavedBy(fs, fs', paths, records, Render(records, order, format))
      ensures backupFailed <==> paths.record !in fs
    {
      var backup := Backup(paths.record);
      fs' := fs - {backup};
      if paths.record in fs {
        fs' := fs'[backup := fs[paths.record]];
        backupFailed := false;
      } else {
        backupFailed := true;
      }
      fs' := fs'[paths.data := Binary(records)];
      var lines;
      lines, order := CsvLines();
      fs' := fs'[paths.record := Text(lines)];
    }
  }

  /** A new location with no files: the load fails for want of a text file and the series
      stays empty; the first amount recorded for February 2021 (not a leap year) creates a
      month of 28 days holding that amount on day 1 and zero on every other day. Saving then
      reports the missing backup and writes a text file of that single month's line. */
  method NewLocationScenario(format: DatumFormat)
    returns (loadFailure: Option<LoadError>, failure: Option<CalendarError>, row: seq<real>,
             backupFailed: bool, text: seq<string>)
    ensures loadFailure == Some(NoTextFile) && failure == None
    ensures |row| == 28 && row[0] == 0.5
    ensures forall i :: 1 <= i < |row| ==> row[i] == 0.0
    ensures backupFailed
    ensures text == [FormatLine(2021, 2, row, format)]
    ensures text[0] == "2021,2" + DaysSuffix(row, format)
  {
    var store := new RainMan("akron", map[], format);
    loadFailure := store.loadFailure;
    assert store.records == map[];
    failure := store.SetRecord(2021, 2, 0, 0.5);
    row := store.records[2021][2];
    assert store.records == map[2021 := map[2 := row]];
    backupFailed, text := SaveSingleMonth(store, 2021, 2, row);
    February2021Line(row, format);
  }

  /** writeRecords on a store holding a single month, with no files yet: the backup is
      reported failed and the text file is that month's line alone. */
  method SaveSingleMonth(store: RainMan, year: int, month: int, days: seq<real>)
    returns (backupFailed: bool, text: seq<string>)
    requires store.records == map[year := map[month := days]] && Distinct(store.paths)
    ensures backupFailed
    ensures text == [FormatLine(year, month, days, store.format)]
  {
    var fs;
    ghost var order;
    fs, backupFailed, order := store.WriteRecords(map[]);
    RenderOfOne(store.records, order, year, month, days, store.format);
    text := fs[store.paths.record].lines;
  }
}
