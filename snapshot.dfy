/**
 * Per-run snapshot framing done by the fetch task: the logical date is
 * formatted as `YYYY-MM-DD`, every fetched row is stamped with one shared
 * ingestion timestamp and with that date, the rows are serialised one per
 * line as newline-delimited JSON, and the object key is derived from the date.
 */
module Snapshot {
  import opened Wrappers
  import opened Records
  import opened Text

  // ---------------------------------------------------------------------
  // The logical date and its `%Y-%m-%d` rendering
  // ---------------------------------------------------------------------

  datatype CalendarDate = CalendarDate(year: int, month: int, day: int)

  predicate IsLeapYear(y: int) {
    y % 4 == 0 && (y % 100 != 0 || y % 400 == 0)
  }

  function DaysInMonth(y: int, m: int): int
    requires 1 <= m <= 12
  {
    if m == 2 then (if IsLeapYear(y) then 29 else 28)
    else if m == 4 || m == 6 || m == 9 || m == 11 then 30
    else 31
  }

  /** A proleptic Gregorian date in the range a Python datetime can hold. */
  predicate ValidDate(d: CalendarDate) {
    && 1 <= d.year <= 9999
    && 1 <= d.month <= 12
    && 1 <= d.day <= DaysInMonth(d.year, d.month)
  }

  /** The run's logical date, already converted to UTC. */
  type Date = d: CalendarDate | ValidDate(d) witness CalendarDate(2026, 1, 1)

  predicate IsDigit(c: char) {
    '0' <= c <= '9'
  }

  function DigitChar(n: int): char
    requires 0 <= n < 10
  {
    (n + '0' as int) as char
  }

  function DigitValue(c: char): int {
    c as int - '0' as int
  }

  /** `n` as exactly two decimal digits, zero-padded. */
  function TwoDigits(n: int): string
    requires 0 <= n < 100
  {
    [DigitChar(n / 10), DigitChar(n % 10)]
  }

  /** `n` as exactly four decimal digits, zero-padded. */
  function FourDigits(n: int): string
    requires 0 <= n < 10000
  {
    TwoDigits(n / 100) + TwoDigits(n % 100)
  }

  function TwoDigitValue(s: string): int
    requires |s| == 2
  {
    10 * DigitValue(s[0]) + DigitValue(s[1])
  }

  /**
   * `ds`, the date rendered with `%Y-%m-%d`: ten characters, `-` at
   * positions 4 and 7, decimal digits everywhere else.
   */
  function FormatDate(d: Date): (ds: string)
    ensures |ds| == 10 && ds[4] == '-' && ds[7] == '-'
    ensures forall k :: 0 <= k < 10 && k != 4 && k != 7 ==> IsDigit(ds[k])
  {
    FourDigits(d.year) + "-" + TwoDigits(d.month) + "-" + TwoDigits(d.day)
  }

  /** Reads a `YYYY-MM-DD` string back into a date; anything else is `None`. */
  function ParseDate(s: string): Option<Date>
  {
    if |s| == 10 && s[4] == '-' && s[7] == '-'
       && (forall k | 0 <= k < 10 && k != 4 && k != 7 :: IsDigit(s[k]))
    then
      var d := CalendarDate(100 * TwoDigitValue(s[0..2]) + TwoDigitValue(s[2..4]),
                            TwoDigitValue(s[5..7]), TwoDigitValue(s[8..10]));
      if ValidDate(d) then Some(d) else None
    else None
  }

  lemma TwoDigitsRoundTrip(n: int)
    requires 0 <= n < 100
    ensures TwoDigitValue(TwoDigits(n)) == n
  {
  }

  lemma DigitsRoundTrip(s: string)
    requires |s| == 2 && IsDigit(s[0]) && IsDigit(s[1])
    ensures 0 <= TwoDigitValue(s) < 100
    ensures TwoDigits(TwoDigitValue(s)) == s
  {
    var v := TwoDigitValue(s);
    assert v / 10 == DigitValue(s[0]) && v % 10 == DigitValue(s[1]);
  }

  /** Parsing recovers the date that was formatted. */
  lemma ParseFormatDate(d: Date)
    ensures ParseDate(FormatDate(d)) == Some(d)
  {
    var ds := FormatDate(d);
    TwoDigitsRoundTrip(d.year / 100);
    TwoDigitsRoundTrip(d.year % 100);
    TwoDigitsRoundTrip(d.month);
    TwoDigitsRoundTrip(d.day);
    assert ds[0..2] == TwoDigits(d.year / 100);
    assert ds[2..4] == TwoDigits(d.year % 100);
    assert ds[5..7] == TwoDigits(d.month);
    assert ds[8..10] == TwoDigits(d.day);
  }

  /** Formatting reproduces every string that parses. */
  lemma FormatParseDate(s: string)
    requires ParseDate(s).Some?
    ensures FormatDate(ParseDate(s).value) == s
  {
    var d := ParseDate(s).value;
    DigitsRoundTrip(s[0..2]);
    DigitsRoundTrip(s[2..4]);
    DigitsRoundTrip(s[5..7]);
    DigitsRoundTrip(s[8..10]);
    assert d.year / 100 == TwoDigitValue(s[0..2]) && d.year % 100 == TwoDigitValue(s[2..4]);
    assert FormatDate(d) == s[0..2] + s[2..4] + "-" + s[5..7] + "-" + s[8..10];
  }

  /** Distinct logical dates give distinct `ds` strings. */
  lemma FormatDateInjective(a: Date, b: Date)
    ensures FormatDate(a) == FormatDate(b) <==> a == b
  {
    ParseFormatDate(a);
    ParseFormatDate(b);
  }

  // ---------------------------------------------------------------------
  // Stamping and serialising the fetched rows
  // ---------------------------------------------------------------------

  /** One row after the loop body's two assignments. */
  function Stamp(row: Row, ingestedAt: string, ds: string): (r: Row)
    ensures r.Keys == row.Keys + {IngestedAtField, SnapshotDateField}
    ensures r[IngestedAtField] == Str(ingestedAt) && r[SnapshotDateField] == Str(ds)
    ensures forall f :: f in row && f != IngestedAtField && f != SnapshotDateField ==> r[f] == row[f]
  {
    row[IngestedAtField := Str(ingestedAt)][SnapshotDateField := Str(ds)]
  }

  /**
   * All fetched rows after the loop: same order and length, each carrying
   * this run's `snapshot_date` and the one `ingested_at` taken before the loop,
   * every other field untouched.
   */
  function Stamped(rows: seq<Row>, ingestedAt: string, ds: string): (r: seq<Row>)
    ensures |r| == |rows|
    ensures forall k :: 0 <= k < |r| ==>
              && r[k].Keys == rows[k].Keys + {IngestedAtField, SnapshotDateField}
              && r[k][SnapshotDateField] == Str(ds)
              && r[k][IngestedAtField] == Str(ingestedAt)
    ensures forall k, f :: 0 <= k < |r| && f in rows[k] && f != IngestedAtField && f != SnapshotDateField ==>
              r[k][f] == rows[k][f]
  {
    seq(|rows|, k requires 0 <= k < |rows| => Stamp(rows[k], ingestedAt, ds))
  }

  /** The serialiser's output for each row, in order. */
  function Serialized(rows: seq<Row>, dumps: Row -> string): seq<string>
  {
    seq(|rows|, k requires 0 <= k < |rows| => dumps(rows[k]))
  }

  /**
   * A serialiser fit for line framing: its output is never empty (a JSON
   * object is at least `{}`) and never holds a raw newline (strings are escaped).
   */
  ghost predicate LineSafe(dumps: Row -> string) {
    forall r :: dumps(r) != [] && '\n' !in dumps(r)
  }

  /** `"\n".join(lines) + "\n"`: always newline-terminated, and just `"\n"` for no lines. */
  function Ndjson(lines: seq<string>): (r: string)
    ensures |r| >= 1 && r[|r| - 1] == '\n'
    ensures lines == [] ==> r == "\n"
  {
    Join("\n", lines) + "\n"
  }

  /** Reference framing: every line followed by its own newline. */
  function Terminated(lines: seq<string>): string {
    if lines == [] then "" else lines[0] + "\n" + Terminated(lines[1..])
  }

  /** For a non-empty fetch the text is each line followed by `"\n"`, in order. */
  lemma {:induction false} NdjsonTerminated(lines: seq<string>)
    requires lines != []
    ensures Ndjson(lines) == Terminated(lines)
  {
    if |lines| > 1 {
      NdjsonTerminated(lines[1..]);
      assert Terminated(lines[1..][1..]) == Terminated(lines[2..]);
    }
  }

  /**
   * Splitting the text on `"\n"` gives back the lines and the empty piece
   * after the trailing newline; an empty fetch is the text `"\n"`, a single
   * blank line.
   */
  lemma NdjsonSplit(lines: seq<string>)
    requires FreeOf(lines, '\n')
    ensures lines == [] ==> Ndjson(lines) == "\n"
    ensures Split(Ndjson(lines), '\n') == if lines == [] then ["", ""] else lines + [""]
  {
    if lines == [] {
      assert Ndjson(lines) == "\n" + "";
      SplitAfterPiece("", "", '\n');
    } else {
      JoinSnoc("\n", lines, "");
      assert Ndjson(lines) == Join("\n", lines + [""]);
      assert FreeOf(lines + [""], '\n');
      SplitJoin(lines + [""], '\n');
    }
  }

  /**
   * The text holds one newline per line, and one for an empty fetch: its
   * newline count is `max(1, |lines|)`.
   */
  lemma NdjsonNewlines(lines: seq<string>)
    requires FreeOf(lines, '\n')
    ensures Count(Ndjson(lines), '\n') == if lines == [] then 1 else |lines|
  {
    CountAppend(Join("\n", lines), "\n", '\n');
    assert Count("\n", '\n') == 1 by { assert "\n"[1..] == ""; }
    if lines != [] {
      CountJoin(lines, '\n');
    }
  }

  // ---------------------------------------------------------------------
  // The object key and the upload
  // ---------------------------------------------------------------------

  const RawPrefix := "data/raw/covid"
  const NdjsonMimeType := "application/x-ndjson"

  /** `{RAW_PREFIX}/snapshot_date={ds}/countries_{ds}.ndjson` */
  function ObjectName(ds: string): (r: string)
    ensures |r| >= 29 + 7
    ensures r[..29] == RawPrefix + "/snapshot_date="
    ensures r[|r| - 7..] == ".ndjson"
  {
    var p := RawPrefix + "/snapshot_date=";
    var q := "/countries_" + ds + ".ndjson";
    assert |p| == 29;
    assert (p + ds + q)[..29] == p;
    assert (p + (ds + q))[|p + ds + q| - 7..] == ".ndjson";
    p + ds + q
  }

  /** The partition segment of the key holds `ds` at a fixed offset. */
  lemma ObjectNamePartition(ds: string)
    ensures |RawPrefix + "/snapshot_date="| == 29
    ensures |ObjectName(ds)| == 29 + 2 * |ds| + 18
    ensures ObjectName(ds)[29..29 + |ds|] == ds
    ensures ObjectName(ds)[29 + |ds|..40 + |ds|] == "/countries_"
    ensures ObjectName(ds)[40 + |ds|..40 + 2 * |ds|] == ds
  {
    var p := RawPrefix + "/snapshot_date=";
    var c := "/countries_";
    assert |c| == 11;
    assert ObjectName(ds) == p + (ds + (c + (ds + ".ndjson")));
    assert (p + (ds + (c + (ds + ".ndjson"))))[|p|..|p| + |ds|] == ds;
    assert (p + (ds + (c + (ds + ".ndjson"))))[|p| + |ds|..|p| + |ds| + |c|] == c;
    assert (p + (ds + (c + (ds + ".ndjson"))))[|p| + |ds| + |c|..|p| + |ds| + |c| + |ds|] == ds;
  }

  /** Re-running a date writes the same object; distinct dates never share one. */
  lemma ObjectNameInjective(a: Date, b: Date)
    ensures ObjectName(FormatDate(a)) == ObjectName(FormatDate(b)) <==> a == b
  {
    ObjectNamePartition(FormatDate(a));
    ObjectNamePartition(FormatDate(b));
    FormatDateInjective(a, b);
  }

  /** What one run writes to the object store, and hands to the load task. */
  datatype Upload = Upload(bucket: string, objectName: string, data: string, mimeType: string)

  /** The upload a run for `date` makes, given what the endpoint returned. */
  function SnapshotUpload(date: Date, fetched: seq<Row>, ingestedAt: string, bucket: string,
                          dumps: Row -> string): Upload
  {
    var ds := FormatDate(date);
    Upload(bucket, ObjectName(ds), Ndjson(Serialized(Stamped(fetched, ingestedAt, ds), dumps)), NdjsonMimeType)
  }

  /**
   * The fetch task after the HTTP call: `fetched` is the decoded response,
   * `ingestedAt` the timestamp read once before the loop, `bucket` the
   * configured bucket.  The loop stamps each row in place and appends its
   * serialisation; the result is the object to upload and the
   * (bucket, key) pair handed to the next task.
   */
  method FetchToGcs(logicalDate: Date, fetched: seq<Row>, ingestedAt: string, bucket: string,
                    dumps: Row -> string)
    returns (upload: Upload)
    ensures upload == SnapshotUpload(logicalDate, fetched, ingestedAt, bucket, dumps)
  {
    var ds := FormatDate(logicalDate);
    var rows := fetched;
    var lines: seq<string> := [];
    var i := 0;
    while i < |rows|
      invariant 0 <= i <= |rows| == |fetched|
      invariant forall k :: 0 <= k < i ==> rows[k] == Stamp(fetched[k], ingestedAt, ds)
      invariant forall k :: i <= k < |rows| ==> rows[k] == fetched[k]
      invariant |lines| == i
      invariant forall k :: 0 <= k < i ==> lines[k] == dumps(rows[k])
    {
      var row := rows[i];
      row := row[IngestedAtField := Str(ingestedAt)];
      row := row[SnapshotDateField := Str(ds)];
      rows := rows[i := row];
      lines := lines + [dumps(row)];
      i := i + 1;
    }
    assert rows == Stamped(fetched, ingestedAt, ds);
    assert lines == Serialized(rows, dumps);
    var ndjson := Join("\n", lines) + "\n";
    var objectName := RawPrefix + "/snapshot_date=" + ds + "/countries_" + ds + ".ndjson";
    upload := Upload(bucket, objectName, ndjson, NdjsonMimeType);
  }
}
