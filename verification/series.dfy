/** The rainfall series of one location, records[year][month][day], and the pure
    definitions of the operations the RainMan class performs on it in place. */
module RainfallSeries {
  import opened Wrappers
  import opened Calendar
  import opened Int16Text
  import opened LineFormat

  /** Year to month to the amounts of that month, day 1 at index 0. */
  type Records = map<int, map<int, seq<real>>>

  /** Every year holds at least one month, and every month holds exactly as many
      amounts as length_month gives for it. */
  ghost predicate WellFormed(r: Records) {
    forall year :: year in r ==>
      && r[year] != map[]
      && forall month :: month in r[year] ==> LengthMonth(month, year) == Ok(|r[year][month]|)
  }

  /** Whether a (year, month) entry is present. */
  predicate HasMonth(r: Records, year: int, month: int) {
    year in r && month in r[year]
  }

  /** The months of a year, none if the year is absent. */
  function MonthsOf(r: Records, year: int): map<int, seq<real>> {
    if year in r then r[year] else map[]
  }

  /** A fresh month array: new double[n] is zero-filled. */
  function Zeros(n: nat): (s: seq<real>)
    ensures |s| == n && forall i :: 0 <= i < n ==> s[i] == 0.0
  {
    seq(n, _ => 0.0)
  }

  /** records after lines 52-53 of setRecord: the year entry exists. */
  function WithYear(r: Records, year: int): (r': Records)
    ensures year in r' && r'[year] == MonthsOf(r, year)
    ensures r'.Keys == r.Keys + {year}
    ensures forall y :: y in r && y != year ==> r'[y] == r[y]
  {
    if year in r then r else r[year := map[]]
  }

  /** setRecord(year, month, day, datum), as intended: create the year and a zero-filled
      month of length_month entries when absent, then write slot day if it is inside the
      month. Fails only when the month must be created and length_month refuses it. */
  function WithRecord(r: Records, year: int, month: int, day: int, datum: real): (res: Result<Records, CalendarError>)
    ensures res.Ok? <==> HasMonth(r, year, month) || LengthMonth(month, year).Ok?
    ensures res.Err? ==> res == Err(LengthMonth(month, year).error)
    ensures res.Ok? ==> res.value.Keys == r.Keys + {year}
    ensures res.Ok? ==> res.value[year].Keys == MonthsOf(r, year).Keys + {month}
    ensures res.Ok? ==> forall y :: y in r && y != year ==> res.value[y] == r[y]
    ensures res.Ok? ==> forall y, m :: HasMonth(r, y, m) && (y, m) != (year, month) ==>
      HasMonth(res.value, y, m) && res.value[y][m] == r[y][m]
    ensures res.Ok? && !HasMonth(r, year, month) ==>
      && |res.value[year][month]| == LengthMonth(month, year).value
      && forall i :: 0 <= i < |res.value[year][month]| && i != day ==> res.value[year][month][i] == 0.0
    ensures res.Ok? && HasMonth(r, year, month) ==>
      && |res.value[year][month]| == |r[year][month]|
      && forall i :: 0 <= i < |r[year][month]| && i != day ==> res.value[year][month][i] == r[year][month][i]
    ensures res.Ok? && 0 <= day < |res.value[year][month]| ==> res.value[year][month][day] == datum
    ensures res.Ok? && WellFormed(r) ==> WellFormed(res.value)
  {
    var months := MonthsOf(r, year);
    if month !in months && LengthMonth(month, year).Err? then Err(LengthMonth(month, year).error)
    else
      var row := if month in months then months[month] else Zeros(LengthMonth(month, year).value);
      var row' := if 0 <= day < |row| then row[day := datum] else row;
      Ok(r[year := months[month := row']])
  }

  /** A day outside the month changes no stored amount: every entry present before is
      the same afterwards (only a missing year or month may have been created). */
  lemma SetRecordIgnoresOutOfRangeDay(r: Records, year: int, month: int, day: int, datum: real)
    requires WithRecord(r, year, month, day, datum).Ok?
    requires day < 0 || |WithRecord(r, year, month, day, datum).value[year][month]| <= day
    ensures forall y, m :: HasMonth(r, y, m) ==> WithRecord(r, year, month, day, datum).value[y][m] == r[y][m]
  {
  }

  /** Recording the same amount twice leaves the series as recording it once. */
  lemma SetRecordIdempotent(r: Records, year: int, month: int, day: int, datum: real)
    requires WithRecord(r, year, month, day, datum).Ok?
    ensures WithRecord(WithRecord(r, year, month, day, datum).value, year, month, day, datum)
         == WithRecord(r, year, month, day, datum)
  {
    var r1 := WithRecord(r, year, month, day, datum).value;
    var row := r1[year][month];
    if 0 <= day < |row| {
      assert row[day := datum] == row;
    }
    assert r1[year][month := row] == r1[year];
    assert r1[year := r1[year]] == r1;
  }

  datatype SetRecordFault =
    | DuplicateKey                 // Dictionary.Add on a month already present (line 55)
    | KeyNotFound                  // records[year][month] on a missing month (line 57)
    | NoLength(refusal: CalendarError) // new double[-1] after length_month's failure

  /** setRecord as written: the test at line 54 lacks its negation, so a present month is
      added again and an absent month is then read. */
  function SetRecordAsWritten(r: Records, year: int, month: int, day: int, datum: real): (res: Result<Records, SetRecordFault>)
    ensures !HasMonth(r, year, month) ==> res == Err(KeyNotFound)
    ensures HasMonth(r, year, month) ==> res.Err? && res.error != KeyNotFound
    ensures HasMonth(r, year, month) && LengthMonth(month, year).Ok? ==> res == Err(DuplicateKey)
    ensures HasMonth(r, year, month) && LengthMonth(month, year).Err? ==>
      res == Err(NoLength(LengthMonth(month, year).error))
  {
    var months := MonthsOf(r, year);
    if month in months then
      match LengthMonth(month, year)
      case Err(e) => Err(NoLength(e))
      case Ok(_) => Err(DuplicateKey)
    else Err(KeyNotFound)
  }

  /** As written, setRecord never stores anything, whereas the intended version stores
      every amount for a month of the calendar. */
  lemma SetRecordAsWrittenNeverStores(r: Records, year: int, month: int, day: int, datum: real)
    ensures SetRecordAsWritten(r, year, month, day, datum).Err?
    ensures LengthMonth(month, year).Ok? ==> WithRecord(r, year, month, day, datum).Ok?
  {
  }

  /** Lines 138-140 of parse_data: create the year if absent and add the month, which
      fails when the (year, month) is already present. */
  function Insert(r: Records, l: Line): (res: Result<Records, LineError>)
    ensures res.Ok? <==> !HasMonth(r, l.year, l.month)
    ensures res.Err? ==> res.error == DuplicateMonth(l.year, l.month)
    ensures res.Ok? ==> res.value.Keys == r.Keys + {l.year}
    ensures res.Ok? ==> res.value[l.year].Keys == MonthsOf(r, l.year).Keys + {l.month}
    ensures res.Ok? ==> res.value[l.year][l.month] == l.days
    ensures res.Ok? ==> forall y :: y in r && y != l.year ==> res.value[y] == r[y]
    ensures res.Ok? ==> forall y, m :: HasMonth(r, y, m) ==> HasMonth(res.value, y, m) && res.value[y][m] == r[y][m]
  {
    if HasMonth(r, l.year, l.month) then Err(DuplicateMonth(l.year, l.month))
    else Ok(r[l.year := MonthsOf(r, l.year)[l.month := l.days]])
  }

  /** parse_data(line): read the line, then add its month to the series. */
  function ParseInto(r: Records, line: string, f: DatumFormat): (res: Result<Records, LineError>)
    ensures ParseLine(line, f).Err? ==> res == Err(ParseLine(line, f).error)
    ensures ParseLine(line, f).Ok? ==> res == Insert(r, ParseLine(line, f).value)
  {
    match ParseLine(line, f)
    case Err(e) => Err(e)
    case Ok(l) => Insert(r, l)
  }

  /** parse_data on a line that reads as l: it fails exactly when (l.year, l.month) is
      already present; otherwise it adds that month with the line's amounts under its year,
      and every year, month and amount already there is kept. */
  lemma ParseIntoAddsEntry(r: Records, line: string, f: DatumFormat, l: Line)
    requires ParseLine(line, f) == Ok(l)
    ensures ParseInto(r, line, f).Ok? <==> !HasMonth(r, l.year, l.month)
    ensures ParseInto(r, line, f).Err? ==> ParseInto(r, line, f).error == DuplicateMonth(l.year, l.month)
    ensures ParseInto(r, line, f).Ok? ==> var r' := ParseInto(r, line, f).value;
      && HasMonth(r', l.year, l.month) && r'[l.year][l.month] == l.days
      && r'.Keys == r.Keys + {l.year}
      && (forall y :: y in r && y != l.year ==> r'[y] == r[y])
      && (forall m :: m in MonthsOf(r, l.year) ==> m in r'[l.year] && r'[l.year][m] == r[l.year][m])
  {
  }

  /** parse_data keeps a well-formed series well-formed: the month it adds has the
      length length_month gives for it. */
  lemma ParseIntoKeepsWellFormed(r: Records, line: string, f: DatumFormat)
    requires WellFormed(r) && ParseInto(r, line, f).Ok?
    ensures WellFormed(ParseInto(r, line, f).value)
  {
  }

  datatype LoadError =
    | BadLine(index: nat, cause: LineError) // parse_data failed on this line of the text file
    | NoTextFile                            // File.OpenText on a missing file
    | UnreadableText                        // the text file's bytes are not lines of text
    | CorruptSnapshot                       // the binary file does not deserialize

  /** readRecords' loop over the text file: parse_data on each line in file order,
      stopping at the first line that fails. */
  function LoadLines(r: Records, lines: seq<string>, f: DatumFormat): (res: Result<Records, LoadError>)
    ensures res.Err? ==> res.error.BadLine? && res.error.index < |lines|
  {
    if lines == [] then Ok(r)
    else
      match LoadLines(r, lines[..|lines| - 1], f)
      case Err(e) => Err(e)
      case Ok(r') =>
        match ParseInto(r', lines[|lines| - 1], f)
        case Err(e) => Err(BadLine(|lines| - 1, e))
        case Ok(r'') => Ok(r'')
  }

  /** A successful load keeps a well-formed series well-formed: every month it adds has
      the length length_month gives. */
  lemma {:induction false} LoadLinesKeepsWellFormed(r: Records, lines: seq<string>, f: DatumFormat)
    requires WellFormed(r) && LoadLines(r, lines, f).Ok?
    ensures WellFormed(LoadLines(r, lines, f).value)
  {
    if lines != [] {
      var front := LoadLines(r, lines[..|lines| - 1], f);
      LoadLinesKeepsWellFormed(r, lines[..|lines| - 1], f);
      ParseIntoKeepsWellFormed(front.value, lines[|lines| - 1], f);
    }
  }

  /** A successful load keeps every entry the series already had. */
  lemma {:induction false} LoadLinesKeepsEntries(r: Records, lines: seq<string>, f: DatumFormat)
    requires LoadLines(r, lines, f).Ok?
    ensures forall y, m :: HasMonth(r, y, m) ==>
      HasMonth(LoadLines(r, lines, f).value, y, m) && LoadLines(r, lines, f).value[y][m] == r[y][m]
  {
    if lines != [] {
      LoadLinesKeepsEntries(r, lines[..|lines| - 1], f);
    }
  }

  /** A load that fails at line k has loaded every line before k, and line k is the one
      parse_data refuses. */
  lemma {:induction false} LoadLinesStopsAtFirstBadLine(r: Records, lines: seq<string>, f: DatumFormat)
    requires LoadLines(r, lines, f).Err?
    ensures var k := LoadLines(r, lines, f).error.index;
      && LoadLines(r, lines[..k], f).Ok?
      && ParseInto(LoadLines(r, lines[..k], f).value, lines[k], f)
         == Err(LoadLines(r, lines, f).error.cause)
  {
    var front := lines[..|lines| - 1];
    if LoadLines(r, front, f).Err? {
      LoadLinesStopsAtFirstBadLine(r, front, f);
      var k := LoadLines(r, front, f).error.index;
      assert LoadLines(r, lines, f) == LoadLines(r, front, f);
      assert front[..k] == lines[..k] && front[k] == lines[k];
    } else {
      assert lines[..|lines| - 1] == front;
      assert LoadLines(r, lines, f).error.index == |lines| - 1;
    }
  }

  /** Once loading a prefix of the lines fails, loading all of them fails the same way. */
  lemma {:induction false} LoadLinesFailurePersists(r: Records, lines: seq<string>, k: nat, f: DatumFormat)
    requires k <= |lines| && LoadLines(r, lines[..k], f).Err?
    ensures LoadLines(r, lines, f) == LoadLines(r, lines[..k], f)
  {
    if k < |lines| {
      var front := lines[..|lines| - 1];
      assert front[..k] == lines[..k];
      LoadLinesFailurePersists(r, front, k, f);
    } else {
      assert lines[..k] == lines;
    }
  }

  /** Every (year, month) of the sequence is present in the series. */
  ghost predicate Present(r: Records, order: seq<(int, int)>) {
    forall k :: k in order ==> HasMonth(r, k.0, k.1)
  }

  /** The sequence lists every (year, month) of the series exactly once. */
  ghost predicate Listing(r: Records, order: seq<(int, int)>) {
    && (forall i, j :: 0 <= i < j < |order| ==> order[i] != order[j])
    && (forall k :: k in order <==> HasMonth(r, k.0, k.1))
  }

  /** The text file writeRecords writes: one line per (year, month), in the given order. */
  function Render(r: Records, order: seq<(int, int)>, f: DatumFormat): (lines: seq<string>)
    requires Present(r, order)
    ensures |lines| == |order|
    ensures forall i :: 0 <= i < |order| ==>
      lines[i] == FormatLine(order[i].0, order[i].1, r[order[i].0][order[i].1], f)
  {
    seq(|order|, i requires 0 <= i < |order| => FormatLine(order[i].0, order[i].1, r[order[i].0][order[i].1], f))
  }

  /** A series of a single month is listed by that month alone. */
  lemma ListingOfOne(r: Records, order: seq<(int, int)>, y: int, m: int, days: seq<real>)
    requires r == map[y := map[m := days]] && Listing(r, order)
    ensures order == [(y, m)]
  {
    assert HasMonth(r, y, m);
    assert (y, m) in order;
    assert forall i :: 0 <= i < |order| ==> order[i] == (y, m);
    assert |order| < 2 || order[0] == order[1];
  }

  /** The text file of a series of a single month is that month's line alone. */
  lemma RenderOfOne(r: Records, order: seq<(int, int)>, y: int, m: int, days: seq<real>, f: DatumFormat)
    requires r == map[y := map[m := days]] && Listing(r, order)
    ensures Render(r, order, f) == [FormatLine(y, m, days, f)]
  {
    ListingOfOne(r, order, y, m, days);
  }

  /** Listing one more entry writes one more line, that entry's. */
  lemma RenderSnoc(r: Records, order: seq<(int, int)>, y: int, m: int, f: DatumFormat)
    requires Present(r, order) && HasMonth(r, y, m)
    ensures Present(r, order + [(y, m)])
    ensures Render(r, order + [(y, m)], f) == Render(r, order, f) + [FormatLine(y, m, r[y][m], f)]
  {
    var o := order + [(y, m)];
    assert forall k :: k in o ==> k in order || k == (y, m);
    assert o[|order|] == (y, m);
  }

  /** The part of the series made of the listed (year, month) entries, added in order. */
  function Restrict(r: Records, order: seq<(int, int)>): (s: Records)
    requires Present(r, order)
    ensures forall y, m :: HasMonth(s, y, m) <==> (y, m) in order
    ensures forall y, m :: HasMonth(s, y, m) ==> s[y][m] == r[y][m]
    ensures forall y :: y in s ==> s[y] != map[]
  {
    if order == [] then map[]
    else
      var k := order[|order| - 1];
      var s := Restrict(r, order[..|order| - 1]);
      assert forall j :: j in order ==> j in order[..|order| - 1] || j == k;
      s[k.0 := MonthsOf(s, k.0)[k.1 := r[k.0][k.1]]]
  }

  /** Every stored amount is printed in a form that reads back as itself. */
  ghost predicate LawfulFor(f: DatumFormat, r: Records) {
    forall y, m :: HasMonth(r, y, m) ==> LawfulOn(f, r[y][m])
  }

  /** The line written for the n-th listed entry reads back as that entry. */
  lemma RenderedLineParses(r: Records, order: seq<(int, int)>, f: DatumFormat, n: nat)
    requires WellFormed(r) && Present(r, order) && LawfulFor(f, r) && n < |order|
    requires forall y :: y in r ==> MinInt16 <= y <= MaxInt16
    ensures var (y, m) := order[n];
      ParseLine(Render(r, order, f)[n], f) == Ok(Line(y, m, r[y][m]))
  {
    var (y, m) := order[n];
    assert order[n] in order;
    LineRoundTrip(y, m, r[y][m], f);
  }

  /** Adding the n-th listed entry to the first n - 1 ones gives the first n. */
  lemma RestrictSnoc(r: Records, order: seq<(int, int)>, n: nat)
    requires Listing(r, order) && 0 < n <= |order|
    ensures var (y, m) := order[n - 1];
      Insert(Restrict(r, order[..n - 1]), Line(y, m, r[y][m])) == Ok(Restrict(r, order[..n]))
  {
    var (y, m) := order[n - 1];
    var s := Restrict(r, order[..n - 1]);
    assert order[..n][..n - 1] == order[..n - 1];
    assert (y, m) !in order[..n - 1] by {
      forall i | 0 <= i < n - 1 ensures order[i] != (y, m) {
        assert order[i] != order[n - 1];
      }
    }
  }

  /** Loading a chain of lines: when line i reads as entry i and inserting entry i
      into states[i] gives states[i + 1], the first n lines load as states[n]. */
  lemma {:induction false} LoadLinesChain(lines: seq<string>, f: DatumFormat, entries: seq<Line>, states: seq<Records>, n: nat)
    requires |entries| == |lines| && |states| == |lines| + 1 && states[0] == map[] && n <= |lines|
    requires forall i :: 0 <= i < |lines| ==> ParseLine(lines[i], f) == Ok(entries[i])
    requires forall i :: 0 <= i < |lines| ==> Insert(states[i], entries[i]) == Ok(states[i + 1])
    ensures LoadLines(map[], lines[..n], f) == Ok(states[n])
  {
    if n == 0 {
      assert lines[..0] == [];
    } else {
      LoadLinesChain(lines, f, entries, states, n - 1);
      assert lines[..n][..n - 1] == lines[..n - 1];
      LoadLinesExtend(map[], lines[..n], f, states[n - 1], entries[n - 1], states[n]);
    }
  }

  /** Loading one more line after a successful prefix is parse_data on that line. */
  lemma LoadLinesSnoc(r: Records, lines: seq<string>, f: DatumFormat, s: Records)
    requires |lines| > 0 && LoadLines(r, lines[..|lines| - 1], f) == Ok(s)
    ensures LoadLines(r, lines, f) == match ParseInto(s, lines[|lines| - 1], f)
      case Ok(t) => Ok(t)
      case Err(e) => Err(BadLine(|lines| - 1, e))
  {
  }

  /** Loading one more line that reads as an entry not yet present adds that entry. */
  lemma LoadLinesExtend(r: Records, lines: seq<string>, f: DatumFormat, s: Records, l: Line, t: Records)
    requires |lines| > 0 && LoadLines(r, lines[..|lines| - 1], f) == Ok(s)
    requires ParseLine(lines[|lines| - 1], f) == Ok(l) && Insert(s, l) == Ok(t)
    ensures LoadLines(r, lines, f) == Ok(t)
  {
    LoadLinesSnoc(r, lines, f, s);
  }

  lemma NonEmptyHasElement(s: set<int>)
    requires s != {}
    ensures exists x :: x in s
  {
    if forall x :: x !in s {
      assert false;
    }
  }

  /** Restricting a series to a listing of all its entries gives the series back,
      provided no year is empty (an empty year has no line to list it). */
  lemma RestrictAll(r: Records, order: seq<(int, int)>)
    requires Listing(r, order)
    requires forall y :: y in r ==> r[y] != map[]
    ensures Restrict(r, order) == r
  {
    var s := Restrict(r, order);
    forall y | y in r ensures y in s && s[y] == r[y] {
      NonEmptyHasElement(r[y].Keys);
      var m :| m in r[y];
      assert (y, m) in order;
      forall m' ensures m' in s[y] <==> m' in r[y] {
        assert HasMonth(r, y, m') <==> (y, m') in order;
      }
      forall m' | m' in s[y] ensures s[y][m'] == r[y][m'] {
        assert HasMonth(s, y, m');
      }
    }
    forall y | y in s ensures y in r {
      NonEmptyHasElement(s[y].Keys);
      var m :| m in s[y];
      assert HasMonth(s, y, m);
    }
    assert s.Keys == r.Keys;
  }

  /** Round trip through the text file alone: loading the lines written for a well-formed
      series with 16-bit years, in any listing order, reproduces the series exactly. */
  lemma TextRoundTrip(r: Records, order: seq<(int, int)>, f: DatumFormat)
    requires WellFormed(r) && Listing(r, order) && LawfulFor(f, r)
    requires forall y :: y in r ==> MinInt16 <= y <= MaxInt16
    ensures LoadLines(map[], Render(r, order, f), f) == Ok(r)
  {
    var lines := Render(r, order, f);
    var entries := seq(|order|, i requires 0 <= i < |order| && Present(r, order) =>
      Line(order[i].0, order[i].1, r[order[i].0][order[i].1]));
    var states := seq(|order| + 1, i requires 0 <= i <= |order| && Present(r, order) =>
      Restrict(r, order[..i]));
    forall i | 0 <= i < |order|
      ensures ParseLine(lines[i], f) == Ok(entries[i])
      ensures Insert(states[i], entries[i]) == Ok(states[i + 1])
    {
      RenderedLineParses(r, order, f, i);
      RestrictSnoc(r, order, i + 1);
    }
    LoadLinesChain(lines, f, entries, states, |order|);
    assert lines[..|order|] == lines;
    assert order[..|order|] == order;
    RestrictAll(r, order);
  }
}
