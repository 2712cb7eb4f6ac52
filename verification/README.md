# RainMan: a Dafny model of a per-location rainfall record store

RainMan (namespace `Weathermen`) keeps the daily rainfall of one location as a two-level
dictionary, `records[year][month][day]`, where each month is an array of
`length_month(month, year)` amounts. It loads the series when it is built, preferring a
binary snapshot (`<LOC>.rm`) and falling back to a comma- or space-delimited text file
(`<LOC>-raindata.txt`, one line `year,month,d0,...,dN-1` per month). It records single
amounts with `setRecord`. It writes both files back, after copying the text file to
`<LOC>-raindata.txt.bak`.

The model has these modules:

- `Calendar`: `length_month`, the Gregorian leap-year rule and the month-name table.
- `Int16Text`: the year and month fields. Parsing follows `Convert.ToInt16` (optional sign,
  digits, 16-bit range). Printing gives decimal text.
- `Tokens`: `Split(',', ' ')`, which keeps empty tokens, and the comma-join the writer produces.
- `LineFormat`: the reading of one line by `parse_data` and the line that `writeRecords`
  writes for one month. Daily amounts are `real`. How they are printed and read back is a
  value `DatumFormat(show, read)`. The predicate `LawfulOn(f, days)` says that, for the
  given amounts, `read` inverts `show` and the printed text holds no separator.
  `LawfulFor(f, r)` says the same for every amount stored in a series.
- `RainfallSeries`: the series as `map<int, map<int, seq<real>>>`. It holds the pure
  definitions of `setRecord` (`WithRecord`), of the insertion at the end of `parse_data`
  (`Insert`) and of the line-by-line load (`LoadLines`), and the text-file round trip.
- `Storage`: file-name derivation, and an abstract file system `map<string, File>`. A file
  holds either a snapshot of the series or lines of text. The module also has the load
  precedence and the state after a save.
- `Weathermen`: the `RainMan` class. Its `records` field is updated in place by `SetRecord`
  and `ParseData`. `ReadRecords` chooses the file to load from, and `ReadLines` loops over the
  text lines. `WriteRecords` writes the backup and the two files, and takes the text lines
  from `CsvLines`, whose nested loops run over the years and their months.

Failures that the original reports through `Trace.Fail`, `Trace.Assert` or an exception are
`Err` results. The constructor keeps the load's failure in `loadFailure` and leaves the
series in the state the failed load left it. For a bad line, that is every line before it
already loaded.

The model follows the code in these places:

- With neither file present, `File.OpenText` throws (RainManMk1/RainMan.cs:98) and the load
  is reported as failed (`NoTextFile`) through `Trace.Fail` (RainManMk1/RainMan.cs:108-110). It is not a silent empty start. The series stays empty.
- Saving deletes the previous backup before copying the text file. When there is no text
  file, the copy fails, the failure is reported, and no backup is left.
- Lines come out in dictionary order. The model allows any order, with one line per
  (year, month).
- `setRecord` sizes a month only when it creates it. The write test uses the length of the
  stored array. The test at line 54 and the month assertion at line 126 are modelled as
  intended, and both are listed under Findings.

## Model

| member | source | states |
|---|---|---|
| `Calendar.IsLeapYear` | RainManMk1/RainMan.cs:227 | a leap year is divisible by 4; a year divisible by 400, or by 4 and not by 100, is a leap year; a century not divisible by 400 is not |
| `Calendar.LengthMonth` | RainManMk1/RainMan.cs:213-241 | succeeds exactly for months 1..12 (February also needs a year DateTime.IsLeapYear accepts, 1..9999); a success is 28..31 days; any other month is a MonthOutOfRange error, never a day count |
| `Calendar.LengthMonthMatchesTable` | RainManMk1/RainMan.cs:215-233 | every valid month's length, in any year for months other than February, is the common-year table entry (31,28,31,30,31,30,31,31,30,31,30,31), plus one day for February of a leap year |
| `Calendar.FebruaryFollowsLeapRule` | RainManMk1/RainMan.cs:226-228 | February has 29 days exactly when the year is divisible by 4 and not a century not divisible by 400, else 28 |
| `Calendar.LeapYearExamples` | RainManMk1/RainMan.cs:226-228 | February of 2000 and 2024 has 29 days; of 1900 and 2021, 28 |
| `Calendar.YearLength` | RainManMk1/RainMan.cs:213-233 | the twelve month lengths of a year add up to 366 in a leap year and 365 otherwise |
| `Calendar.GregorianCycle` | RainManMk1/RainMan.cs:226-228 | month lengths repeat every 400 years |
| `Calendar.MonthNamesCoverMonths` | RainManMk1/RainMan.cs:199-211 | every month length_month accepts has a three-letter name at index month - 1; the twelve names are distinct |
| `Int16Text.ParseInt16` | RainManMk1/RainMan.cs:123-124 | a token is malformed exactly when it is not an optional sign followed by digits; a numeral with digits d reads as +d or -d when that lies in -32768..32767 and is an Overflow error exactly when it lies outside |
| `Int16Text.ParseInt16RejectsStrayCharacters` | RainManMk1/RainMan.cs:123-124 | a token with any character other than a leading sign and digits is rejected as malformed |
| `Int16Text.ShowNat` | RainManMk1/RainMan.cs:178 | the printed digits of a natural number are non-empty decimal digits whose value is that number |
| `Int16Text.ShowInt` | RainManMk1/RainMan.cs:178 | the printed year or month starts with '-' exactly when it is negative, and the digits after the sign are decimal digits without a leading zero whose value is its magnitude; so it holds no separator |
| `Int16Text.Int16RoundTrip` | RainManMk1/RainMan.cs:123-124 | parsing the printed form of any 16-bit integer gives that integer back |
| `Tokens.Split` | RainManMk1/RainMan.cs:122 | a line splits into one more token than it has commas and spaces (empty tokens kept), no token holds a separator, and putting the line's own separators back between the tokens, in order, gives the line back |
| `Tokens.SplitInterleave` | RainManMk1/RainMan.cs:122 | splitting separator-free tokens joined by any mix of commas and spaces gives exactly those tokens |
| `Tokens.SplitJoin` | RainManMk1/RainMan.cs:122 | splitting the comma-join of separator-free tokens gives exactly those tokens |
| `LineFormat.ParseDays` | RainManMk1/RainMan.cs:129-136 | on success there is one amount per token and amount i is token i read; on failure, the index of the first token that does not read |
| `LineFormat.ParseLine` | RainManMk1/RainMan.cs:119-136 | an accepted line has year and month in its first two tokens, a month in 1..12, exactly length_month + 2 tokens and amount i read from token i + 2; the array has exactly length_month entries |
| `LineFormat.YearReadFirst` | RainManMk1/RainMan.cs:122-124 | a line whose first token is not a 16-bit number is rejected for its year, before the month token is looked at, as written and as intended |
| `LineFormat.OneTokenLinesFailOnYear` | RainManMk1/RainMan.cs:122-124 | an empty line and the line "abc" are both rejected as a malformed year |
| `LineFormat.ReadsYearAndMonth2020` | RainManMk1/RainMan.cs:123-124 | the tokens "2020" and "2" read as the year 2020 and the month 2 |
| `LineFormat.ParseLineComplete` | RainManMk1/RainMan.cs:122-136 | every line of that shape is accepted, with exactly that year, month and amounts (the converse of ParseLine's contract) |
| `LineFormat.WrongDayCountRejected` | RainManMk1/RainMan.cs:127 | a line whose token count differs from length_month + 2 is rejected with the expected and found day counts |
| `LineFormat.February2020NeedsTwentyNineDays` | RainManMk1/RainMan.cs:127 | a February 2020 line with 27 amounts is rejected, because 29 are required |
| `LineFormat.ParseLineAsWritten` | RainManMk1/RainMan.cs:119-127 | as written: every line the intended reading accepts is rejected, by the month assertion, with its own month |
| `LineFormat.ParseLineAsWrittenRejectsEveryLine` | RainManMk1/RainMan.cs:126 | with the month assertion as written, no line whatever is accepted |
| `LineFormat.FormatLine` | RainManMk1/RainMan.cs:178-185 | when no printed amount holds a separator, splitting the written line gives back its fields: year, month and the printed amounts in day order |
| `LineFormat.FormatLineIsJoin` | RainManMk1/RainMan.cs:178-185 | the written line is the comma-join of year, month and the printed amounts in day order |
| `LineFormat.FormatLineIsSuffix` | RainManMk1/RainMan.cs:178-185 | the written line is the year, a comma, the month, then ",amount" for each amount in day order |
| `LineFormat.February2021Line` | RainManMk1/RainMan.cs:178-185 | the line written for February 2021 is "2021,2" followed by ",amount" for each amount in day order |
| `LineFormat.LineRoundTrip` | RainManMk1/RainMan.cs:174-186 | parsing the line written for a month gives back its year, month and amounts, for 16-bit years and amount printing that is lawful on those amounts |
| `LineFormat.HalvesFormatIsLawful` | RainManMk1/RainMan.cs:183 | a format that prints 0 and 0.5 as "0" and "0.5" is lawful on any month of such amounts, so the round-trip hypothesis can be met |
| `RainfallSeries.Zeros` | RainManMk1/RainMan.cs:55 | a new month array has the requested length and every entry is zero |
| `RainfallSeries.WithYear` | RainManMk1/RainMan.cs:52-53 | afterwards the year is present, keeping its months if it had any; other years are untouched |
| `RainfallSeries.WithRecord` | RainManMk1/RainMan.cs:48-59 | fails only when the month is absent and length_month refuses it; otherwise the year and month exist, a created month has length_month entries that are all zero except possibly slot day, slot day holds the amount when 0 <= day < length, every other slot and month is unchanged, every other year keeps its value, and well-formedness is preserved |
| `RainfallSeries.SetRecordIgnoresOutOfRangeDay` | RainManMk1/RainMan.cs:57-58 | a day below 0 or at or beyond the month's length changes no stored amount |
| `RainfallSeries.SetRecordIdempotent` | RainManMk1/RainMan.cs:57-58 | recording the same amount twice gives the same series as recording it once |
| `RainfallSeries.SetRecordAsWritten` | RainManMk1/RainMan.cs:48-58 | as written: an absent month fails on the missing key at line 57; a present month that length_month accepts fails on the duplicate key at line 55; a present month it refuses fails with length_month's error |
| `RainfallSeries.SetRecordAsWrittenNeverStores` | RainManMk1/RainMan.cs:54-57 | as written, setRecord fails on every input, while the intended version succeeds for every month of the calendar |
| `RainfallSeries.Insert` | RainManMk1/RainMan.cs:138-140 | a (year, month) already present is a DuplicateMonth error; otherwise the month is added under its year (created if absent), every other year keeps its value and every other entry is unchanged |
| `RainfallSeries.ParseInto` | RainManMk1/RainMan.cs:119-141 | parse_data fails with the reading's error when the line does not read; otherwise it is the insertion of the line's year, month and amounts |
| `RainfallSeries.ParseIntoAddsEntry` | RainManMk1/RainMan.cs:119-141 | for a line that reads, parse_data succeeds exactly when its (year, month) is absent and otherwise fails with DuplicateMonth; on success that month holds the line's amounts, its year is added to the years, and every other year, month and amount is kept |
| `RainfallSeries.ParseIntoKeepsWellFormed` | RainManMk1/RainMan.cs:119-141 | a successful parse_data keeps the series well-formed: the month it adds has exactly length_month amounts and its year is not empty |
| `RainfallSeries.LoadLines` | RainManMk1/RainMan.cs:98-105 | a failure is always a bad-line failure that names a line of the file |
| `RainfallSeries.LoadLinesKeepsEntries` | RainManMk1/RainMan.cs:98-105 | a successful load keeps every (year, month) already in the series, with its amounts unchanged |
| `RainfallSeries.LoadLinesKeepsWellFormed` | RainManMk1/RainMan.cs:98-105 | a successful load keeps a well-formed series well-formed |
| `RainfallSeries.LoadLinesStopsAtFirstBadLine` | RainManMk1/RainMan.cs:101-104 | a load failing at line k has loaded lines 0..k-1, and line k is the one parse_data refuses |
| `RainfallSeries.LoadLinesFailurePersists` | RainManMk1/RainMan.cs:101-104 | once a prefix of the lines fails to load, the whole file fails in the same way |
| `RainfallSeries.Render` | RainManMk1/RainMan.cs:174-186 | the text file has one line per listed (year, month), line i being the line written for the i-th entry |
| `RainfallSeries.ListingOfOne` | RainManMk1/RainMan.cs:174-176 | a series of a single month is listed by that month alone |
| `RainfallSeries.RenderOfOne` | RainManMk1/RainMan.cs:174-186 | the text file of a series of a single month is that month's line alone |
| `RainfallSeries.RenderedLineParses` | RainManMk1/RainMan.cs:174-186 | each line written for a well-formed series with 16-bit years and lawful amount printing reads back as that entry's year, month and amounts |
| `RainfallSeries.TextRoundTrip` | RainManMk1/RainMan.cs:174-186 | loading the text file written for a well-formed series with 16-bit years, in any order of its months, reproduces the series exactly, when amount printing is lawful on the stored amounts |
| `Storage.UpperChar` | RainManMk1/RainMan.cs:66 | a lower-case ASCII letter becomes the upper-case letter 32 code points below it, and every other character is kept; the result is never a lower-case letter |
| `Storage.Upper` | RainManMk1/RainMan.cs:66 | upper-casing keeps the length, upper-cases each character where it stands, and leaves no lower-case ASCII letter |
| `Storage.UpperIdempotent` | RainManMk1/RainMan.cs:66 | upper-casing twice is upper-casing once |
| `Storage.FileNames` | RainManMk1/RainMan.cs:66-69 | the data, text, summary and backup files are four different files: the upper-cased location followed by ".rm", "-raindata.txt" and "-summary.txt", and the text file name followed by ".bak" |
| `Storage.FileNamesIdentifyLocation` | RainManMk1/RainMan.cs:66-69 | two locations share their files exactly when they agree up to case |
| `Storage.Backup` | RainManMk1/RainMan.cs:152 | the backup name is the text file name followed by ".bak", so it differs from it |
| `Storage.LoadInto` | RainManMk1/RainMan.cs:85-112 | with the data file present the load succeeds exactly when it holds a snapshot, and gives that snapshot; without it, a missing text file is NoTextFile, an unreadable one UnreadableText, and a bad line names a line of the text file |
| `Storage.Load` | RainManMk1/RainMan.cs:85-112 | the load into the constructor's empty series fails with NoTextFile exactly when neither file exists; a series loaded from text is well-formed |
| `Storage.LoadPrefersSnapshot` | RainManMk1/RainMan.cs:89-95 | when the snapshot exists it is loaded verbatim, whatever the text file holds and whether or not it exists |
| `Storage.LoadFallsBackToText` | RainManMk1/RainMan.cs:96-106 | without a snapshot the load is parse_data over the text lines in file order, and any failing line fails it |
| `Storage.LoadWithoutFilesFails` | RainManMk1/RainMan.cs:96-111 | with neither file present the load fails |
| `Storage.SavedBy` | RainManMk1/RainMan.cs:147-194 | after a save the files are those there were plus the data and text files, with the backup present exactly when there was a text file to copy |
| `Storage.SaveThenLoad` | RainManMk1/RainMan.cs:162-169 | after a save, loading gives back the saved series through the snapshot |
| `Storage.SaveThenLoadText` | RainManMk1/RainMan.cs:171-188 | after a save with the snapshot lost, loading the text file gives back the saved series, when amount printing is lawful on its amounts |
| `Weathermen.RainMan.constructor` | RainManMk1/RainMan.cs:61-71 | derives the three file names from the location and loads; on success the series is what Load gives, on failure the failure is kept and the series is empty or holds the lines before the bad one |
| `Weathermen.RainMan.SetRecord` | RainManMk1/RainMan.cs:48-59 | the new series is WithRecord of the old; on failure only the year entry has been created |
| `Weathermen.RainMan.ParseData` | RainManMk1/RainMan.cs:119-141 | the new series is ParseInto of the old; on failure it is unchanged and the failure is returned |
| `Weathermen.RainMan.ReadFields` | RainManMk1/RainMan.cs:122-136 | the reading part of parse_data gives exactly what ParseLine gives |
| `Weathermen.RainMan.ReadDays` | RainManMk1/RainMan.cs:129-136 | the filled array equals ParseDays of the tokens after year and month |
| `Weathermen.RainMan.ReadRecords` | RainManMk1/RainMan.cs:85-112 | the result and new series are LoadInto of the old series; a failing line leaves every earlier line loaded |
| `Weathermen.RainMan.ReadLines` | RainManMk1/RainMan.cs:98-105 | the new series is LoadLines of the old over the text lines; on a failure the failure names a line, and every line before it has been loaded |
| `Weathermen.RainMan.ReadLine` | RainManMk1/RainMan.cs:101-104 | after lines 0..i-1 have loaded, parse_data on line i extends the load to lines 0..i, or fails at line i and leaves the series unchanged |
| `Weathermen.RainMan.FormatRow` | RainManMk1/RainMan.cs:178-185 | the line built for one month is FormatLine of its year, month and amounts |
| `Weathermen.RainMan.FormatAmounts` | RainManMk1/RainMan.cs:179-184 | the amounts of a month are written as ",amount" for each, in day order |
| `Weathermen.RainMan.CsvLines` | RainManMk1/RainMan.cs:174-187 | one line per (year, month) present, each exactly once, each the written line of that month |
| `Weathermen.RainMan.AppendRow` | RainManMk1/RainMan.cs:176-186 | writing one more month appends exactly its line to the lines written so far |
| `Weathermen.RainMan.WriteRecords` | RainManMk1/RainMan.cs:147-194 | the new file system holds the snapshot, the text lines of CsvLines and a backup of the previous text file (none if there was none), and every other file is unchanged; the backup is reported failed exactly when there was no text file |
| `Weathermen.NewLocationScenario` | RainManMk1/RainMan.cs:48-194 | a new location without files fails its load for want of a text file; the first amount recorded for February 2021 succeeds and creates a 28-day month holding it on day 0 and zero elsewhere; saving then reports the missing backup and writes a text file holding only the line "2021,2" followed by that month's amounts |
| `Weathermen.SaveSingleMonth` | RainManMk1/RainMan.cs:147-194 | writeRecords on a store of a single month with no files yet reports the backup failed and writes exactly that month's line to the text file |

## Findings

| source | as written | input that shows it | evidently intended | confidence | as-written member | corrected member |
|---|---|---|---|---|---|---|
| RainManMk1/RainMan.cs:54 | the month array is added when the month is already present | setRecord(2021, 2, 0, 0.5) on an empty store: the month is absent, so line 57 reads a missing key; a second call on a present month adds a duplicate key | create the zero-filled month when it is absent (the comment at lines 50-51 says so) | high, not executed | `RainfallSeries.SetRecordAsWrittenNeverStores` | `RainfallSeries.WithRecord` |
| RainManMk1/RainMan.cs:126 | the assertion holds only when the month is outside 1..12 | the line `2021,1` followed by 31 amounts: month 1 fails the assertion; month 13 passes it and then has no length | assert that the month is within 1..12, as the assertion's message says | high, not executed | `LineFormat.ParseLineAsWrittenRejectsEveryLine` | `LineFormat.ParseLine` |

A further limit: `setRecord` accepts any integer year for
months other than February. `Convert.ToInt16` reads years back only within -32768..32767.
A series holding a year outside that range therefore saves a text file that cannot be
loaded again. `TextRoundTrip` and `SaveThenLoadText` require 16-bit years for this reason.

A second limit comes from the same step. A `setRecord` whose length_month fails has already
added the year (RainManMk1/RainMan.cs:52-53), so the year can be left with no months. The text
file has no line for an empty year, so loading it again drops that year. `WellFormed`, which
the round trips require, excludes empty years.

## Left out

- BinaryFormatter's byte format: a snapshot file holds the series value itself, so reading it back is exact.
- Real file I/O: file existence, read and write failures other than a missing file, partial writes after a crash, and closing of streams. The file system is a value passed in and returned.
- Floating point: amounts are `real`, and printing and parsing them are the parameter `DatumFormat`. The round trips assume `LawfulOn` for a line's amounts (`LawfulFor` for a whole series): reading a printed stored amount gives it back, and its text holds no comma or space. Whether a given .NET format meets this for every double is not modelled.
- `Int16Text.ParseInt16`: does not accept the leading and trailing white space or the culture-specific signs that `Convert.ToInt16` allows. A token with a tab, for example, is rejected here but accepted by .NET.
- `Storage.Upper`: upper-cases ASCII letters only. Culture-specific case mapping is not modelled.
- The finalizer `~RainMan`: saving is the explicit `WriteRecords`, since finalization is non-deterministic.
- `Trace.Fail` and `Trace.Assert` listener behaviour (dialogs, logging, process exit): failures are `Err` results, and the store keeps running with the state the failure left.
- The mutable handle returned by the `Records` getter, and aliasing of the month arrays. Months are sequence values, and an in-place slot write is modelled as replacing the sequence.
- The summary file: its name is derived, but the report that would fill it does not exist in the source.
- 32-bit wrap-around of the `int` parameters of `setRecord`: years and days are unbounded integers.
- Weathermen.RainMan.CsvLines: promises each (year, month) exactly once but no order, because the writer's order is the dictionary's insertion order, which the map model does not keep. The grouping of each year's months that the nested loops produce is not stated either.
