/**
 * The load task: the object written by the fetch task is read as
 * newline-delimited JSON against the fixed schema and replaces the whole
 * staging table (`WRITE_TRUNCATE`).
 */
module Staging {
  import opened Wrappers
  import opened Records
  import opened Text
  import opened Snapshot

  datatype LoadErrorKind = MalformedRecord | UnknownField

  /** Why a load job failed, and at which record (counting non-blank lines from 0). */
  datatype LoadError = LoadError(record: nat, kind: LoadErrorKind)

  /**
   * The lines that carry records: every non-blank line, as often as it
   * occurs; blank lines carry none.
   */
  function NonBlank(lines: seq<string>): (r: seq<string>)
    ensures |r| <= |lines|
    ensures forall l :: l in r <==> l in lines && l != ""
    ensures forall l :: multiset(r)[l] == if l == "" then 0 else multiset(lines)[l]
  {
    if lines == [] then []
    else
      assert lines == [lines[0]] + lines[1..];
      (if lines[0] == "" then [] else [lines[0]]) + NonBlank(lines[1..])
  }

  /** The record lines of an object's text. */
  function RecordLines(text: string): seq<string> {
    NonBlank(Split(text, '\n'))
  }

  /**
   * A parsed object as a staging row: every schema column is present, a
   * field the object lacks becomes NULL, and an object with no field outside
   * the schema loses nothing.
   */
  function ToSchemaRow(obj: Row): (r: Row)
    ensures Shaped(r)
    ensures obj.Keys <= Columns ==> forall c :: Col(r, c) == Col(obj, c)
  {
    map c | c in Columns :: Col(obj, c)
  }

  /** A line the strict load accepts: it parses, and names no field outside the schema. */
  predicate Accepted(parsed: Option<Row>) {
    parsed.Some? && parsed.value.Keys <= Columns
  }

  function KindOf(parsed: Option<Row>): LoadErrorKind {
    if parsed.None? then MalformedRecord else UnknownField
  }

  /**
   * Reads the record lines with the line parser `parse`: the job succeeds iff
   * every line is accepted, and then yields one schema row per line, in order;
   * otherwise it reports the first line that is not.
   */
  function Decode(lines: seq<string>, parse: string -> Option<Row>): (r: Result<seq<Row>, LoadError>)
    ensures r.Ok? <==> forall k :: 0 <= k < |lines| ==> Accepted(parse(lines[k]))
    ensures r.Ok? ==> |r.value| == |lines|
    ensures r.Ok? ==> forall k :: 0 <= k < |lines| ==> r.value[k] == ToSchemaRow(parse(lines[k]).value)
    ensures r.Err? ==> && r.error.record < |lines|
                       && !Accepted(parse(lines[r.error.record]))
                       && r.error.kind == KindOf(parse(lines[r.error.record]))
                       && forall k :: 0 <= k < r.error.record ==> Accepted(parse(lines[k]))
  {
    if lines == [] then Ok([])
    else
      var head := parse(lines[0]);
      if !Accepted(head) then Err(LoadError(0, KindOf(head)))
      else match Decode(lines[1..], parse)
        case Err(e) => Err(LoadError(e.record + 1, e.kind))
        case Ok(rest) => Ok([ToSchemaRow(head.value)] + rest)
  }

  /** The rows a load job reads from an object's text. */
  function Load(text: string, parse: string -> Option<Row>): (r: Result<seq<Row>, LoadError>)
    ensures r.Ok? <==> forall k :: 0 <= k < |RecordLines(text)| ==> Accepted(parse(RecordLines(text)[k]))
    ensures r.Ok? ==> |r.value| == |RecordLines(text)| && forall k :: 0 <= k < |r.value| ==> Shaped(r.value[k])
    ensures r.Err? ==> r.error.record < |RecordLines(text)|
  {
    Decode(RecordLines(text), parse)
  }

  /**
   * The staging table after the load job: with `WRITE_TRUNCATE` a successful
   * load leaves exactly the loaded rows, whatever was there before; a failed
   * job leaves the table as it was.
   */
  function LoadToStaging(previous: seq<Row>, text: string, parse: string -> Option<Row>): (r: seq<Row>)
    ensures Load(text, parse).Ok? ==> r == Load(text, parse).value
    ensures Load(text, parse).Err? ==> r == previous
  {
    match Load(text, parse)
    case Ok(rows) => rows
    case Err(_) => previous
  }

  lemma {:induction false} NonBlankAppend(a: seq<string>, b: seq<string>)
    ensures NonBlank(a + b) == NonBlank(a) + NonBlank(b)
  {
    if a == [] {
      assert a + b == b;
    } else {
      assert (a + b)[1..] == a[1..] + b;
      NonBlankAppend(a[1..], b);
    }
  }

  lemma {:induction false} NonBlankId(lines: seq<string>)
    requires forall k :: 0 <= k < |lines| ==> lines[k] != ""
    ensures NonBlank(lines) == lines
  {
    if lines != [] {
      NonBlankId(lines[1..]);
    }
  }

  /** The parser reads back whatever the serialiser wrote. */
  ghost predicate Decodes(parse: string -> Option<Row>, dumps: Row -> string) {
    forall r :: parse(dumps(r)) == Some(r)
  }

  /**
   * The load reads exactly the lines the fetch task framed, in order; an
   * empty fetch (the text `"\n"`) loads no record.
   */
  lemma RecordLinesOfNdjson(lines: seq<string>)
    requires forall k :: 0 <= k < |lines| ==> lines[k] != "" && '\n' !in lines[k]
    ensures RecordLines(Ndjson(lines)) == lines
  {
    NdjsonSplit(lines);
    if lines != [] {
      NonBlankAppend(lines, [""]);
      NonBlankId(lines);
    }
  }

  /**
   * Loading the object the fetch task framed from `rows` gives one schema
   * row per fetched row, in fetch order, as long as no row has a field outside
   * the schema; otherwise the job fails at the first such row.
   */
  lemma LoadSerialized(rows: seq<Row>, dumps: Row -> string, parse: string -> Option<Row>)
    requires LineSafe(dumps) && Decodes(parse, dumps)
    ensures var r := Load(Ndjson(Serialized(rows, dumps)), parse);
            && (r.Ok? <==> forall k :: 0 <= k < |rows| ==> rows[k].Keys <= Columns)
            && (r.Ok? ==> r.value == seq(|rows|, k requires 0 <= k < |rows| => ToSchemaRow(rows[k])))
            && (r.Err? ==> r.error.record < |rows| && !(rows[r.error.record].Keys <= Columns)
                           && r.error.kind == UnknownField)
  {
    var lines := Serialized(rows, dumps);
    RecordLinesOfNdjson(lines);
    assert Load(Ndjson(lines), parse) == Decode(lines, parse);
    assert forall k :: 0 <= k < |rows| ==> parse(lines[k]) == Some(rows[k]);
  }
}
