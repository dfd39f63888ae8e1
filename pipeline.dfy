/**
 * One scheduled run of the daily pipeline, its steps strictly in order:
 * frame the fetched snapshot as an object, load it into staging, merge
 * staging into history.  A step that fails stops the run; what the earlier
 * steps did stays done.
 */
module Pipeline {
  import opened Wrappers
  import opened Records
  import opened Text
  import opened Snapshot
  import opened Staging
  import opened History

  /** The two warehouse tables a run touches. */
  datatype Tables = Tables(staging: seq<Row>, history: seq<Row>)

  datatype Failure = LoadFailed(load: LoadError) | MergeFailed(merge: MergeError)

  /** The tables after the run, the object it wrote, and the step that failed, if one did. */
  datatype Outcome = Outcome(tables: Tables, upload: Upload, failure: Option<Failure>)

  /**
   * The run for logical date `date`.  History changes only when the whole
   * run succeeds, and then it is the merge of the old history with the new
   * staging table.
   */
  function RunDay(w: Tables, date: Date, fetched: seq<Row>, ingestedAt: string, bucket: string,
                  dumps: Row -> string, parse: string -> Option<Row>): (r: Outcome)
    ensures r.upload.objectName == ObjectName(FormatDate(date)) && r.upload.bucket == bucket
    ensures r.failure.Some? ==> r.tables.history == w.history
    ensures r.failure.None? ==> && AtMostOneMatch(w.history, r.tables.staging)
                                && r.tables.history == Merge(w.history, r.tables.staging)
  {
    var upload := SnapshotUpload(date, fetched, ingestedAt, bucket, dumps);
    var staging := LoadToStaging(w.staging, upload.data, parse);
    match Load(upload.data, parse)
    case Err(e) => Outcome(w, upload, Some(LoadFailed(e)))
    case Ok(_) =>
      match Upsert(w.history, staging)
      case Err(e) => Outcome(Tables(staging, w.history), upload, Some(MergeFailed(e)))
      case Ok(h) => Outcome(Tables(staging, h), upload, None)
  }

  /** The staging rows a run for `ds` loads from the fetched rows. */
  function StagedRows(fetched: seq<Row>, ingestedAt: string, ds: string): seq<Row> {
    seq(|fetched|, k requires 0 <= k < |fetched| => ToSchemaRow(Stamp(fetched[k], ingestedAt, ds)))
  }

  /** What the endpoint returns fits the schema and names each country once. */
  predicate WellFormedFetch(fetched: seq<Row>) {
    && (forall k :: 0 <= k < |fetched| ==> fetched[k].Keys <= Columns)
    && (forall k :: 0 <= k < |fetched| ==> Col(fetched[k], CountryField) != Null)
    && (forall i, j :: 0 <= i < j < |fetched| ==> Col(fetched[i], CountryField) != Col(fetched[j], CountryField))
  }

  /** A staged row carries the run's date and the fetched row's country as its key. */
  lemma StagedKey(row: Row, ingestedAt: string, ds: string)
    requires row.Keys <= Columns
    ensures Stamp(row, ingestedAt, ds).Keys <= Columns
    ensures Key(ToSchemaRow(Stamp(row, ingestedAt, ds))) == (Str(ds), Col(row, CountryField))
  {
    var st := Stamp(row, ingestedAt, ds);
    assert Col(st, CountryField) == Col(row, CountryField);
  }

  /**
   * After a run whose fetched rows fit the schema, staging holds exactly this
   * run's rows, one per fetched row in fetch order, each stamped with the
   * run's date and the one ingestion timestamp: nothing of the previous
   * staging table survives.
   */
  lemma RunDayStaging(w: Tables, date: Date, fetched: seq<Row>, ingestedAt: string, bucket: string,
                      dumps: Row -> string, parse: string -> Option<Row>)
    requires LineSafe(dumps) && Decodes(parse, dumps)
    requires forall k :: 0 <= k < |fetched| ==> fetched[k].Keys <= Columns
    ensures var r := RunDay(w, date, fetched, ingestedAt, bucket, dumps, parse);
            && (r.failure.None? || r.failure == Some(MergeFailed(AmbiguousSourceMatch)))
            && r.tables.staging == StagedRows(fetched, ingestedAt, FormatDate(date))
  {
    var ds := FormatDate(date);
    var st := Stamped(fetched, ingestedAt, ds);
    forall k | 0 <= k < |st| ensures st[k].Keys <= Columns {
      StagedKey(fetched[k], ingestedAt, ds);
    }
    LoadSerialized(st, dumps, parse);
  }

  /** The staged rows for a well-formed fetch can be merged twice without ambiguity or duplication. */
  lemma StagedRowsKeyed(fetched: seq<Row>, t1: string, t2: string, ds: string)
    requires WellFormedFetch(fetched)
    ensures |StagedRows(fetched, t1, ds)| == |fetched|
    ensures forall k :: 0 <= k < |fetched| ==> Key(StagedRows(fetched, t1, ds)[k]) == (Str(ds), Col(fetched[k], CountryField))
    ensures SameKeys(StagedRows(fetched, t1, ds), StagedRows(fetched, t2, ds))
    ensures UniqueKeys(StagedRows(fetched, t2, ds)) && AllKeyed(StagedRows(fetched, t2, ds))
    ensures ShapedTable(StagedRows(fetched, t1, ds)) && ShapedTable(StagedRows(fetched, t2, ds))
  {
    var s1 := StagedRows(fetched, t1, ds);
    var s2 := StagedRows(fetched, t2, ds);
    forall k | 0 <= k < |fetched|
      ensures Key(s1[k]) == Key(s2[k]) == (Str(ds), Col(fetched[k], CountryField))
    {
      StagedKey(fetched[k], t1, ds);
      StagedKey(fetched[k], t2, ds);
    }
    forall i, j | 0 <= i < j < |s2| ensures !Matches(s2[i], s2[j]) {
      assert Col(fetched[i], CountryField) != Col(fetched[j], CountryField);
    }
  }

  /**
   * Re-running a date overwrites, never duplicates: running the pipeline
   * for the same logical date and the same fetched rows a second time, at a
   * later ingestion time, writes to the same key (overwriting the object,
   * whose `ingested_at` stamps now differ) and leaves the tables as a
   * single run at that later time would have.
   */
  lemma RerunSameDate(w: Tables, date: Date, fetched: seq<Row>, t1: string, t2: string, bucket: string,
                      dumps: Row -> string, parse: string -> Option<Row>)
    requires LineSafe(dumps) && Decodes(parse, dumps)
    requires WellFormedFetch(fetched)
    ensures var first := RunDay(w, date, fetched, t1, bucket, dumps, parse);
            var again := RunDay(first.tables, date, fetched, t2, bucket, dumps, parse);
            && first.failure.None? && again.failure.None?
            && again.upload.objectName == first.upload.objectName
            && again.tables == RunDay(w, date, fetched, t2, bucket, dumps, parse).tables
  {
    var ds := FormatDate(date);
    var first := RunDay(w, date, fetched, t1, bucket, dumps, parse);
    RunDayStaging(w, date, fetched, t1, bucket, dumps, parse);
    RunDayStaging(first.tables, date, fetched, t2, bucket, dumps, parse);
    RunDayStaging(w, date, fetched, t2, bucket, dumps, parse);
    StagedRowsKeyed(fetched, t1, t2, ds);
    StagedRowsKeyed(fetched, t1, t1, ds);
    var s1 := StagedRows(fetched, t1, ds);
    var s2 := StagedRows(fetched, t2, ds);
    UniqueSourceKeysSuffice(w.history, s1);
    assert first.tables.history == Merge(w.history, s1);
    MergeOverwrites(w.history, s1, s2);
    UniqueSourceKeysSuffice(first.tables.history, s2);
    UniqueSourceKeysSuffice(w.history, s2);
  }

  /**
   * A run for one date never alters a history row of another date, whatever
   * the endpoint returned and whether or not the run succeeds.
   */
  lemma OtherDateRowsUntouched(w: Tables, date: Date, other: Date, fetched: seq<Row>, ingestedAt: string,
                               bucket: string, dumps: Row -> string, parse: string -> Option<Row>, i: nat)
    requires LineSafe(dumps) && Decodes(parse, dumps)
    requires other != date
    requires i < |w.history| && Col(w.history[i], SnapshotDateField) == Str(FormatDate(other))
    ensures var r := RunDay(w, date, fetched, ingestedAt, bucket, dumps, parse);
            i < |r.tables.history| && r.tables.history[i] == w.history[i]
  {
    var r := RunDay(w, date, fetched, ingestedAt, bucket, dumps, parse);
    var ds := FormatDate(date);
    FormatDateInjective(date, other);
    if r.failure.None? {
      var st := Stamped(fetched, ingestedAt, ds);
      LoadSerialized(st, dumps, parse);
      var s := r.tables.staging;
      forall j | 0 <= j < |s| ensures Col(s[j], SnapshotDateField) == Str(ds) {
        assert st[j].Keys <= Columns by {
          StagedKey(fetched[j], ingestedAt, ds);
        }
      }
      OtherDatesUntouched(w.history, s, i);
    }
  }

  lemma ExampleDate()
    ensures FormatDate(CalendarDate(2026, 1, 1)) == "2026-01-01"
  {
    assert TwoDigits(20) == "20" && TwoDigits(26) == "26" && TwoDigits(1) == "01";
  }

  /** The example's object key, written out. */
  lemma ExampleKey()
    ensures ObjectName("2026-01-01") == "data/raw/covid/snapshot_date=2026-01-01/countries_2026-01-01.ndjson"
  {
    assert RawPrefix + "/snapshot_date=" == "data/raw/covid/snapshot_date=";
    assert "data/raw/covid/snapshot_date=" + "2026-01-01" == "data/raw/covid/snapshot_date=2026-01-01";
    assert "data/raw/covid/snapshot_date=2026-01-01" + "/countries_"
        == "data/raw/covid/snapshot_date=2026-01-01/countries_";
    assert "data/raw/covid/snapshot_date=2026-01-01/countries_" + "2026-01-01"
        == "data/raw/covid/snapshot_date=2026-01-01/countries_2026-01-01";
    assert "data/raw/covid/snapshot_date=2026-01-01/countries_2026-01-01" + ".ndjson"
        == "data/raw/covid/snapshot_date=2026-01-01/countries_2026-01-01.ndjson";
  }

  /** The example's one fetched row, as staged on 2026-01-01. */
  lemma ExampleRow(ingestedAt: string)
    ensures var row := map[CountryField := Str("Testland"), "cases" := Int(10), "deaths" := Int(1)];
            var staged := ToSchemaRow(Stamp(row, ingestedAt, "2026-01-01"));
            && row.Keys <= Columns
            && Key(staged) == (Str("2026-01-01"), Str("Testland"))
            && Col(staged, "cases") == Int(10) && Col(staged, "deaths") == Int(1)
  {
    var row := map[CountryField := Str("Testland"), "cases" := Int(10), "deaths" := Int(1)];
    assert row.Keys <= Columns;
    StagedKey(row, ingestedAt, "2026-01-01");
    var st := Stamp(row, ingestedAt, "2026-01-01");
    assert Col(ToSchemaRow(st), "cases") == Col(st, "cases");
    assert Col(ToSchemaRow(st), "deaths") == Col(st, "deaths");
  }

  /**
   * One fetched row for "Testland" on 2026-01-01, merged into
   * an empty history, lands under the date's key and becomes the one
   * history row for (2026-01-01, "Testland") with cases = 10, deaths = 1.
   */
  lemma TestlandExample(w: Tables, ingestedAt: string, bucket: string,
                        dumps: Row -> string, parse: string -> Option<Row>)
    requires LineSafe(dumps) && Decodes(parse, dumps)
    requires w.history == []
    ensures var row := map[CountryField := Str("Testland"), "cases" := Int(10), "deaths" := Int(1)];
            var r := RunDay(w, CalendarDate(2026, 1, 1), [row], ingestedAt, bucket, dumps, parse);
            && r.upload.objectName == "data/raw/covid/snapshot_date=2026-01-01/countries_2026-01-01.ndjson"
            && r.failure.None?
            && |r.tables.staging| == 1 && |r.tables.history| == 1
            && Key(r.tables.history[0]) == (Str("2026-01-01"), Str("Testland"))
            && Col(r.tables.history[0], "cases") == Int(10)
            && Col(r.tables.history[0], "deaths") == Int(1)
  {
    var row := map[CountryField := Str("Testland"), "cases" := Int(10), "deaths" := Int(1)];
    var date := CalendarDate(2026, 1, 1);
    ExampleDate();
    ExampleKey();
    ExampleRow(ingestedAt);
    RunDayStaging(w, date, [row], ingestedAt, bucket, dumps, parse);
    var s := StagedRows([row], ingestedAt, "2026-01-01");
    MergeIntoEmpty(s);
  }
}
