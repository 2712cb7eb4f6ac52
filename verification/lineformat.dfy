/** One line of the delimited-text file: parse_data's reading of a line and the
    line writeRecords writes for one (year, month). */
module LineFormat {
  import opened Wrappers
  import opened Calendar
  import opened Int16Text
  import opened Tokens

  /** How a daily amount is written ({0} formatting of a double) and read back
      (Convert.ToDouble, which fails on malformed text). */
  datatype DatumFormat = DatumFormat(show: real -> string, read: string -> Option<real>)

  /** The printed form of each of these amounts reads back as that amount and holds no
      separator. Only the amounts written are constrained: a real format cannot print
      every real exactly. */
  ghost predicate LawfulOn(f: DatumFormat, days: seq<real>) {
    forall i :: 0 <= i < |days| ==> f.read(f.show(days[i])) == Some(days[i]) && SeparatorFree(f.show(days[i]))
  }

  /** The entry one line contributes to the store. */
  datatype Line = Line(year: int, month: int, days: seq<real>)

  datatype LineError =
    | MissingMonth                            // the line has no second token
    | BadYear(cause: NumberError)             // Convert.ToInt16 on the first token
    | BadMonth(cause: NumberError)            // Convert.ToInt16 on the second token
    | MonthNotInCalendar(month: int)          // the month range assertion
    | BadLength(refusal: CalendarError)       // length_month refuses the (month, year)
    | WrongDayCount(expected: nat, found: nat) // token count is not length_month + 2
    | BadDatum(token: nat)                    // Convert.ToDouble fails on this token
    | DuplicateMonth(year: int, month: int)   // Dictionary.Add on a key already present

  /** The daily amounts read in token order; on failure, the index of the first token
      that does not read. */
  function ParseDays(tokens: seq<string>, f: DatumFormat): (r: Result<seq<real>, nat>)
    ensures r.Ok? ==> |r.value| == |tokens|
    ensures r.Ok? ==> forall i :: 0 <= i < |tokens| ==> f.read(tokens[i]) == Some(r.value[i])
    ensures r.Err? ==> r.error < |tokens| && f.read(tokens[r.error]).None?
    ensures r.Err? ==> forall i :: 0 <= i < r.error ==> f.read(tokens[i]).Some?
  {
    if tokens == [] then Ok([])
    else
      match ParseDays(tokens[..|tokens| - 1], f)
      case Err(k) => Err(k)
      case Ok(days) =>
        match f.read(tokens[|tokens| - 1])
        case None => Err(|tokens| - 1)
        case Some(v) => Ok(days + [v])
  }

  /** Once a prefix of the tokens fails to read, the whole sequence fails at the same token. */
  lemma {:induction false} ParseDaysFailurePersists(tokens: seq<string>, k: nat, f: DatumFormat)
    requires k <= |tokens| && ParseDays(tokens[..k], f).Err?
    ensures ParseDays(tokens, f) == ParseDays(tokens[..k], f)
  {
    if k < |tokens| {
      var front := tokens[..|tokens| - 1];
      assert front[..k] == tokens[..k];
      ParseDaysFailurePersists(front, k, f);
    } else {
      assert tokens[..k] == tokens;
    }
  }

  /** Reading one more token after a prefix that read: it fails at that token or appends its amount. */
  lemma ParseDaysSnoc(tokens: seq<string>, k: nat, f: DatumFormat)
    requires k < |tokens| && ParseDays(tokens[..k], f).Ok?
    ensures f.read(tokens[k]).None? ==> ParseDays(tokens[..k + 1], f) == Err(k)
    ensures f.read(tokens[k]).Some? ==>
      ParseDays(tokens[..k + 1], f) == Ok(ParseDays(tokens[..k], f).value + [f.read(tokens[k]).value])
  {
    assert tokens[..k + 1][..k] == tokens[..k];
  }

  /** The checks after the month assertion: the token count against length_month + 2,
      then the amounts, which fill an array of exactly length_month entries. */
  function ParseFields(tokens: seq<string>, year: int, month: int, f: DatumFormat): (r: Result<Line, LineError>)
    requires |tokens| >= 2
  {
    match LengthMonth(month, year)
    case Err(e) => Err(BadLength(e))
    case Ok(n) =>
      if |tokens| != n + 2 then Err(WrongDayCount(n, |tokens| - 2))
      else
        match ParseDays(tokens[2..], f)
        case Err(k) => Err(BadDatum(k + 2))
        case Ok(days) => Ok(Line(year, month, days))
  }

  /** What an accepted line looks like: year and month in the first two tokens, a month
      of the calendar, exactly length_month + 2 tokens, and amount i in token i + 2. */
  ghost predicate Accepts(tokens: seq<string>, l: Line, f: DatumFormat) {
    && |tokens| == |l.days| + 2
    && ParseInt16(tokens[0]) == Ok(l.year)
    && ParseInt16(tokens[1]) == Ok(l.month)
    && 1 <= l.month <= |MonthNames|
    && LengthMonth(l.month, l.year) == Ok(|l.days|)
    && forall i :: 0 <= i < |l.days| ==> f.read(tokens[i + 2]) == Some(l.days[i])
  }

  /** parse_data's reading of one line, with the month check as intended (1..12). */
  function ParseLine(line: string, f: DatumFormat): (r: Result<Line, LineError>)
    ensures r.Ok? ==> Accepts(Split(line), r.value, f)
  {
    var tokens := Split(line);
    match ParseInt16(tokens[0])
    case Err(e) => Err(BadYear(e))
    case Ok(year) =>
      if |tokens| < 2 then Err(MissingMonth)
      else
        match ParseInt16(tokens[1])
        case Err(e) => Err(BadMonth(e))
        case Ok(month) =>
          if month < 1 || |MonthNames| < month then Err(MonthNotInCalendar(month))
          else ParseFields(tokens, year, month, f)
  }

  /** The year is read before anything else: a first token that is not a 16-bit number
      fails the line on the year, even when there is no second token. */
  lemma YearReadFirst(line: string, f: DatumFormat)
    requires ParseInt16(Split(line)[0]).Err?
    ensures ParseLine(line, f) == Err(BadYear(ParseInt16(Split(line)[0]).error))
    ensures ParseLineAsWritten(line, f) == Err(BadYear(ParseInt16(Split(line)[0]).error))
  {
  }

  /** An empty line and a line of one word both fail on the year, not on the missing month. */
  lemma OneTokenLinesFailOnYear(f: DatumFormat)
    ensures ParseLine("", f) == Err(BadYear(Malformed))
    ensures ParseLine("abc", f) == Err(BadYear(Malformed))
  {
    assert Split("") == [""];
    assert "abc"[0] == 'a' && "abc"[1..][0] == 'b';
    assert !IsNumeral("abc");
    assert Split("abc") == ["abc"];
    YearReadFirst("", f);
    YearReadFirst("abc", f);
  }

  /** Every line of the accepted shape is accepted, with exactly that entry. */
  lemma ParseLineComplete(line: string, l: Line, f: DatumFormat)
    requires Accepts(Split(line), l, f)
    ensures ParseLine(line, f) == Ok(l)
  {
    var tokens := Split(line);
    var rest := tokens[2..];
    assert forall i :: 0 <= i < |rest| ==> f.read(rest[i]) == Some(l.days[i]);
    var r := ParseDays(rest, f);
    assert r.value == l.days;
  }

  /** A line whose token count is not length_month + 2 is rejected. */
  lemma WrongDayCountRejected(line: string, f: DatumFormat, year: int, month: int, n: nat)
    requires |Split(line)| >= 2
    requires ParseInt16(Split(line)[0]) == Ok(year) && ParseInt16(Split(line)[1]) == Ok(month)
    requires LengthMonth(month, year) == Ok(n) && |Split(line)| != n + 2
    ensures ParseLine(line, f) == Err(WrongDayCount(n, |Split(line)| - 2))
  {
  }

  /** The tokens "2020" and "2" read as year 2020 and month 2. */
  lemma ReadsYearAndMonth2020()
    ensures ParseInt16("2020") == Ok(2020) && ParseInt16("2") == Ok(2)
  {
    Int16RoundTrip(2020);
    Int16RoundTrip(2);
    assert ShowInt(2020) == "2020";
    assert ShowInt(2) == "2";
  }

  /** February 2020 has 29 days, so a line with only 27 amounts after "2020" and "2" fails. */
  lemma February2020NeedsTwentyNineDays(line: string, f: DatumFormat)
    requires |Split(line)| == 2 + 27 && Split(line)[0] == "2020" && Split(line)[1] == "2"
    ensures ParseLine(line, f) == Err(WrongDayCount(29, 27))
  {
    var tokens := Split(line);
    ReadsYearAndMonth2020();
    assert ParseInt16(tokens[0]) == Ok(2020) && ParseInt16(tokens[1]) == Ok(2);
    assert LengthMonth(2, 2020) == Ok(29);
    assert ParseFields(tokens, 2020, 2, f) == Err(WrongDayCount(29, 27));
  }

  /** Line 126 as written: Trace.Assert passes when its condition holds, and the
      condition there holds only for months outside the name table. */
  predicate MonthAssertionAsWritten(month: int) {
    month < 1 || |MonthNames| < month
  }

  /** parse_data as written: the inverted assertion rejects every month of the calendar,
      and a month it lets through has no length (length_month's default branch). */
  function ParseLineAsWritten(line: string, f: DatumFormat): (r: Result<Line, LineError>)
    ensures ParseLine(line, f).Ok? ==> r == Err(MonthNotInCalendar(ParseLine(line, f).value.month))
  {
    var tokens := Split(line);
    match ParseInt16(tokens[0])
    case Err(e) => Err(BadYear(e))
    case Ok(year) =>
      if |tokens| < 2 then Err(MissingMonth)
      else
        match ParseInt16(tokens[1])
        case Err(e) => Err(BadMonth(e))
        case Ok(month) =>
          if !MonthAssertionAsWritten(month) then Err(MonthNotInCalendar(month))
          else ParseFields(tokens, year, month, f)
  }

  /** As written, no line at all is accepted: the text file can never be loaded. */
  lemma ParseLineAsWrittenRejectsEveryLine(line: string, f: DatumFormat)
    ensures ParseLineAsWritten(line, f).Err?
  {
  }

  /** The amounts, as the writer prints them, ",{0}" for each in day order. */
  function DaysSuffix(days: seq<real>, f: DatumFormat): string {
    if days == [] then "" else DaysSuffix(days[..|days| - 1], f) + "," + f.show(days[|days| - 1])
  }

  /** The printed forms of the amounts, in day order. */
  function Printed(days: seq<real>, f: DatumFormat): (t: seq<string>)
    ensures |t| == |days|
  {
    seq(|days|, i requires 0 <= i < |days| => f.show(days[i]))
  }

  /** The tokens of a written line: year, month, then each amount's printed form. */
  function LineTokens(year: int, month: int, days: seq<real>, f: DatumFormat): (t: seq<string>)
    ensures |t| == |days| + 2
  {
    [ShowInt(year), ShowInt(month)] + Printed(days, f)
  }

  /** Separator-free leading fields followed by amounts whose printed forms hold no
      separator: the comma-join splits back into exactly those fields. */
  lemma JoinedFieldsSplit(head: seq<string>, days: seq<real>, f: DatumFormat)
    requires |head| >= 1 && forall i :: 0 <= i < |head| ==> SeparatorFree(head[i])
    ensures (forall i :: 0 <= i < |days| ==> SeparatorFree(f.show(days[i]))) ==>
      Split(Join(head + Printed(days, f))) == head + Printed(days, f)
  {
    var tokens := head + Printed(days, f);
    if forall i :: 0 <= i < |days| ==> SeparatorFree(f.show(days[i])) {
      forall i | 0 <= i < |tokens| ensures SeparatorFree(tokens[i]) {
        if i >= |head| {
          assert tokens[i] == f.show(days[i - |head|]);
        }
      }
      SplitJoin(tokens);
    }
  }

  lemma ShowIntSeparatorFree(n: int)
    ensures SeparatorFree(ShowInt(n))
  {
    var s := ShowInt(n);
    forall i | 0 <= i < |s| ensures !IsSeparator(s[i]) {
      assert IsDigit(s[i]) || s[i] == '-';
    }
  }

  /** The line written for one (year, month): year, month and the printed amounts in day
      order, joined by commas. When no printed amount holds a separator, the line splits
      back into exactly those fields. */
  function FormatLine(year: int, month: int, days: seq<real>, f: DatumFormat): (line: string)
    ensures (forall i :: 0 <= i < |days| ==> SeparatorFree(f.show(days[i]))) ==>
      Split(line) == LineTokens(year, month, days, f)
  {
    ShowIntSeparatorFree(year);
    ShowIntSeparatorFree(month);
    JoinedFieldsSplit([ShowInt(year), ShowInt(month)], days, f);
    Join(LineTokens(year, month, days, f))
  }

  /** Appending ",{0}" per amount to a join is joining the printed amounts on as well. */
  lemma {:induction false} SuffixIsJoin(head: seq<string>, days: seq<real>, f: DatumFormat)
    requires |head| >= 1
    ensures Join(head) + DaysSuffix(days, f) == Join(head + Printed(days, f))
  {
    if days == [] {
      assert head + Printed(days, f) == head;
    } else {
      var front := days[..|days| - 1];
      var last := f.show(days[|days| - 1]);
      SuffixIsJoin(head, front, f);
      assert head + Printed(days, f) == (head + Printed(front, f)) + [last];
      JoinSnoc(head + Printed(front, f), last);
    }
  }

  /** The line as the writer's loop builds it, "{0},{1}" and then ",{0}" per amount, is the
      comma-join of its fields. */
  lemma FormatLineIsJoin(year: int, month: int, days: seq<real>, f: DatumFormat)
    ensures ShowInt(year) + "," + ShowInt(month) + DaysSuffix(days, f) == Join(LineTokens(year, month, days, f))
  {
    var head := [ShowInt(year), ShowInt(month)];
    assert Join(head) == ShowInt(year) + "," + ShowInt(month);
    SuffixIsJoin(head, days, f);
  }

  /** The written line is year and month, then ",amount" for each amount in day order. */
  lemma FormatLineIsSuffix(year: int, month: int, days: seq<real>, f: DatumFormat)
    ensures FormatLine(year, month, days, f) == ShowInt(year) + "," + ShowInt(month) + DaysSuffix(days, f)
  {
    FormatLineIsJoin(year, month, days, f);
  }

  /** The line written for February 2021 starts with the text "2021,2". */
  lemma February2021Line(days: seq<real>, f: DatumFormat)
    ensures FormatLine(2021, 2, days, f) == "2021,2" + DaysSuffix(days, f)
  {
    FormatLineIsSuffix(2021, 2, days, f);
    assert ShowInt(2021) == "2021" && ShowInt(2) == "2";
  }

  /** Round trip: parsing the line written for (year, month, days) gives back that entry,
      for every 16-bit year and every month length_month accepts for it. */
  lemma LineRoundTrip(year: int, month: int, days: seq<real>, f: DatumFormat)
    requires LawfulOn(f, days)
    requires MinInt16 <= year <= MaxInt16
    requires LengthMonth(month, year) == Ok(|days|)
    ensures ParseLine(FormatLine(year, month, days, f), f) == Ok(Line(year, month, days))
  {
    var line := FormatLine(year, month, days, f);
    assert Split(line) == LineTokens(year, month, days, f);
    LineTokensAccepted(year, month, days, f);
    ParseLineComplete(line, Line(year, month, days), f);
  }

  /** The fields written for an entry have the shape parse_data accepts, for that entry. */
  lemma LineTokensAccepted(year: int, month: int, days: seq<real>, f: DatumFormat)
    requires LawfulOn(f, days)
    requires MinInt16 <= year <= MaxInt16
    requires LengthMonth(month, year) == Ok(|days|)
    ensures Accepts(LineTokens(year, month, days, f), Line(year, month, days), f)
  {
    var tokens := LineTokens(year, month, days, f);
    assert forall i :: 0 <= i < |days| ==> tokens[i + 2] == f.show(days[i]);
    Int16RoundTrip(year);
    Int16RoundTrip(month);
  }

  /** A format that prints 0 and 0.5 exactly: the law above is met by some format, here
      for a month holding those two amounts. */
  function HalvesFormat(): DatumFormat {
    DatumFormat(
      x => if x == 0.5 then "0.5" else "0",
      s => if s == "0.5" then Some(0.5) else if s == "0" then Some(0.0) else None)
  }

  lemma HalvesFormatIsLawful(days: seq<real>)
    requires forall i :: 0 <= i < |days| ==> days[i] == 0.0 || days[i] == 0.5
    ensures LawfulOn(HalvesFormat(), days)
  {
  }
}
