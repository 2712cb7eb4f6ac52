/** The files of one location and the choice readRecords makes between them. The file
    system is a value: each file holds either a binary snapshot of the whole series
    (BinaryFormatter's output, taken as an exact copy) or lines of text. */
module Storage {
  import opened Wrappers
  import opened LineFormat
  import opened RainfallSeries

  /** ASCII upper-casing of one character: a lower-case letter becomes its upper-case
      partner, 32 code points below it; every other character stays as it is. */
  function UpperChar(c: char): (u: char)
    ensures !('a' <= u <= 'z')
    ensures 'a' <= c <= 'z' ==> 'A' <= u <= 'Z' && u as int == c as int - 32
    ensures !('a' <= c <= 'z') ==> u == c
  {
    if 'a' <= c <= 'z' then (c as int - 32) as char else c
  }

  /** location.ToUpper(), for ASCII text: each character upper-cased where it stands. */
  function Upper(s: string): (u: string)
    ensures |u| == |s|
    ensures forall i :: 0 <= i < |u| ==> !('a' <= u[i] <= 'z')
    ensures forall i :: 0 <= i < |s| ==> u[i] == UpperChar(s[i])
  {
    seq(|s|, i requires 0 <= i < |s| => UpperChar(s[i]))
  }

  /** Upper-casing twice is upper-casing once. */
  lemma UpperIdempotent(s: string)
    ensures Upper(Upper(s)) == Upper(s)
  {
    var u := Upper(s);
    assert forall i :: 0 <= i < |u| ==> UpperChar(u[i]) == u[i];
  }

  /** The three files of a location: XML_FILE, RECORD_FILE and OUTPUT_FILE. */
  datatype Paths = Paths(data: string, record: string, summary: string)

  /** The single-generation copy of the text file made before it is rewritten. */
  function Backup(record: string): (b: string)
    ensures |b| == |record| + 4 && b[..|record|] == record && b[|record|..] == ".bak"
    ensures b != record
  {
    record + ".bak"
  }

  /** The data file, the text file, its backup and the summary file are four different files. */
  ghost predicate Distinct(p: Paths) {
    && p.data != p.record && p.data != p.summary && p.record != p.summary
    && Backup(p.record) != p.data && Backup(p.record) != p.record && Backup(p.record) != p.summary
  }

  /** The constructor's file names, derived from the upper-cased location. */
  function FileNames(location: string): (p: Paths)
    ensures Distinct(p)
    ensures |p.data| == |location| + 3 && p.data[..|location|] == Upper(location)
    ensures |p.record| == |location| + 13 && |p.summary| == |location| + 12
    ensures p.record[..|location|] == Upper(location) && p.summary[..|location|] == Upper(location)
    ensures p.data[|location|..] == ".rm" && p.record[|location|..] == "-raindata.txt"
    ensures p.summary[|location|..] == "-summary.txt"
  {
    var loc := Upper(location);
    var p := Paths(loc + ".rm", loc + "-raindata.txt", loc + "-summary.txt");
    assert |p.data| < |p.summary| < |p.record| < |Backup(p.record)|;
    p
  }

  /** Two locations share their files exactly when they agree up to case. */
  lemma FileNamesIdentifyLocation(a: string, b: string)
    ensures FileNames(a) == FileNames(b) <==> Upper(a) == Upper(b)
  {
    if FileNames(a) == FileNames(b) {
      assert |a| == |b|;
      assert Upper(a) == FileNames(a).data[..|a|];
    }
  }

  datatype File = Binary(snapshot: Records) | Text(lines: seq<string>)

  type FileSystem = map<string, File>

  /** readRecords starting from the series r: the binary snapshot verbatim when the data
      file exists; otherwise parse_data over every line of the text file, in order. */
  function LoadInto(r: Records, fs: FileSystem, p: Paths, f: DatumFormat): (res: Result<Records, LoadError>)
    ensures p.data in fs ==> (res.Ok? <==> fs[p.data].Binary?)
    ensures p.data in fs && fs[p.data].Binary? ==> res.value == fs[p.data].snapshot
    ensures p.data in fs && fs[p.data].Text? ==> res == Err(CorruptSnapshot)
    ensures res == Err(NoTextFile) <==> p.data !in fs && p.record !in fs
    ensures res == Err(UnreadableText) <==> p.data !in fs && p.record in fs && fs[p.record].Binary?
    ensures res.Err? && res.error.BadLine? ==>
      && p.data !in fs && p.record in fs && fs[p.record].Text?
      && res.error.index < |fs[p.record].lines|
  {
    if p.data in fs then
      match fs[p.data]
      case Binary(snapshot) => Ok(snapshot)
      case Text(_) => Err(CorruptSnapshot)
    else if p.record !in fs then Err(NoTextFile)
    else
      match fs[p.record]
      case Binary(_) => Err(UnreadableText)
      case Text(lines) => LoadLines(r, lines, f)
  }

  /** What the constructor loads into its initially empty series. */
  function Load(fs: FileSystem, p: Paths, f: DatumFormat): (res: Result<Records, LoadError>)
    ensures p.data !in fs && res.Ok? ==> WellFormed(res.value)
    ensures res == Err(NoTextFile) <==> p.data !in fs && p.record !in fs
  {
    if p.data !in fs && p.record in fs && fs[p.record].Text? && LoadLines(map[], fs[p.record].lines, f).Ok? then
      LoadLinesKeepsWellFormed(map[], fs[p.record].lines, f);
      LoadInto(map[], fs, p, f)
    else
      LoadInto(map[], fs, p, f)
  }

  /** Whenever the snapshot exists it is taken as it is, whatever the text file holds
      and whether or not it exists. */
  lemma LoadPrefersSnapshot(fs: FileSystem, p: Paths, f: DatumFormat, r: Records, text: Option<File>)
    requires Distinct(p) && p.data in fs && fs[p.data] == Binary(r)
    ensures var fs' := if text.Some? then fs[p.record := text.value] else fs - {p.record};
      Load(fs', p, f) == Ok(r)
  {
  }

  /** Without the snapshot the series is exactly what parsing the text lines in order
      gives, and any failing line fails the load. */
  lemma LoadFallsBackToText(fs: FileSystem, p: Paths, f: DatumFormat, lines: seq<string>)
    requires p.data !in fs && p.record in fs && fs[p.record] == Text(lines)
    ensures Load(fs, p, f) == LoadLines(map[], lines, f)
    ensures Load(fs, p, f).Err? ==> Load(fs, p, f).error.BadLine? && Load(fs, p, f).error.index < |lines|
  {
  }

  /** With neither file present the load fails: File.OpenText raises, and readRecords
      reports it through Trace.Fail. */
  lemma LoadWithoutFilesFails(fs: FileSystem, p: Paths, f: DatumFormat)
    requires p.data !in fs && p.record !in fs
    ensures Load(fs, p, f) == Err(NoTextFile)
  {
  }

  /** The file system after writeRecords: the previous text file copied to the backup
      (the old backup deleted first, so no backup is left when there was no text file),
      the snapshot of r in the data file, the given lines in the text file, and every
      other file unchanged. Afterwards the files are those there were, plus the data and
      text files, with the backup present exactly when there was a text file to copy. */
  ghost function SavedBy(fs: FileSystem, fs': FileSystem, p: Paths, r: Records, lines: seq<string>): (saved: bool)
    ensures saved && Distinct(p) ==> forall name :: name in fs' <==>
      if name == Backup(p.record) then p.record in fs else name == p.data || name == p.record || name in fs
  {
    && p.data in fs' && fs'[p.data] == Binary(r)
    && p.record in fs' && fs'[p.record] == Text(lines)
    && (p.record in fs ==> Backup(p.record) in fs' && fs'[Backup(p.record)] == fs[p.record])
    && (p.record !in fs ==> Backup(p.record) !in fs')
    && forall name :: name != p.data && name != p.record && name != Backup(p.record) ==>
         (name in fs' <==> name in fs) && (name in fs ==> fs'[name] == fs[name])
  }

  /** Saving and loading again gives back the saved series, through the snapshot. */
  lemma SaveThenLoad(fs: FileSystem, fs': FileSystem, p: Paths, r: Records, lines: seq<string>, f: DatumFormat)
    requires SavedBy(fs, fs', p, r, lines)
    ensures Load(fs', p, f) == Ok(r)
  {
  }

  /** Saving and loading again with the snapshot lost gives back the saved series through
      the text file, for a well-formed series with 16-bit years. */
  lemma SaveThenLoadText(fs: FileSystem, fs': FileSystem, p: Paths, r: Records, order: seq<(int, int)>, f: DatumFormat)
    requires Distinct(p) && WellFormed(r) && Listing(r, order) && LawfulFor(f, r)
    requires forall y :: y in r ==> Int16Text.MinInt16 <= y <= Int16Text.MaxInt16
    requires SavedBy(fs, fs', p, r, Render(r, order, f))
    ensures Load(fs' - {p.data}, p, f) == Ok(r)
  {
    TextRoundTrip(r, order, f);
  }
}
