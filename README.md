# COVID-19 daily snapshot pipeline — a verified model

The repository is one Airflow DAG. Each day it fetches per-country COVID-19
statistics, writes them as newline-delimited JSON (NDJSON) to object storage,
loads that object into a BigQuery staging table, and merges staging into a
history table keyed by `(snapshot_date, country)`. This project models the
DAG's computable core and proves properties of it:

- **Snapshot framing** (`fetch_to_gcs`). The UTC logical date becomes the
  string `ds` (`YYYY-MM-DD`). Every fetched row gets the one `ingested_at`
  timestamp and `ds` added to it. The rows are serialised one per line and
  joined with `"\n"`, plus a trailing `"\n"`. The object key is derived from
  `ds`. The loop that stamps and serialises in place is the method
  `Snapshot.FetchToGcs`. Its result is tied to specification functions, and
  lemmas prove their properties.
- **Staging load**. The loader reads the object's lines against the fixed
  schema and fails on a malformed line or an unknown field. Its write mode is
  `WRITE_TRUNCATE`: a successful load replaces the staging table.
- **History upsert**. This is the MERGE statement, modelled as a pure
  function over tables. It holds SQL's rule that NULL never matches, and
  BigQuery's rule that no target row may match two source rows.
- **One run** of the three steps in order (`Pipeline.RunDay`). An end-to-end
  lemma proves that, for a fetch that names each country once, never NULL,
  re-running a date overwrites and never duplicates.

Modules: `Wrappers` (Option, Result), `Records` (values, rows, the schema's
column sets), `Text` (Python's `str.join`, `str.split`, `str.count`),
`Snapshot`, `Staging`, `History`, `Pipeline`.

Modelling choices:
- A record is a map from field name to an opaque JSON `Value`. Measures are
  never computed with; FLOAT64 values are carried as their bits.
- `json.dumps` is a parameter `dumps`. It is required to be `LineSafe`:
  its output is never empty and never holds a raw newline.
- BigQuery's per-line JSON parser is a parameter `parse`. It is required to
  read back what `dumps` wrote.
- All rows of a run share one ingestion timestamp, because
  dags/covid_19_dags.py:99 computes it once, before the loop.
- An empty fetch frames as the text `"\n"`: one blank line. The text therefore
  holds `max(1, n)` newlines for `n` rows. The loader is modelled as skipping
  blank lines, so an empty fetch loads no rows.
- A staging row with a NULL `country` (or NULL date) matches nothing.
  `History.NullCountryReinserted` shows that every merge inserts each
  occurrence of such a row again, and `History.NullCountryDuplicatedOnRerun`
  that re-running the same staging table adds another copy, so the idempotence lemmas require non-NULL,
  unique keys.
- `%Y` is rendered as four zero-padded digits. The logical date is a valid
  Gregorian date with a year from 1 to 9999.

## Model

| member | source | states |
|---|---|---|
| `Snapshot.FormatDate` | dags/covid_19_dags.py:91-92 | `ds` has 10 characters, `-` at positions 4 and 7, and decimal digits everywhere else |
| `Snapshot.ParseFormatDate` | dags/covid_19_dags.py:92 | parsing `ds` back gives the logical date that was formatted |
| `Snapshot.FormatParseDate` | dags/covid_19_dags.py:92 | every string that parses as a date is exactly the `ds` of that date |
| `Snapshot.FormatDateInjective` | dags/covid_19_dags.py:91-92 | two dates give the same `ds` iff they are the same date |
| `Snapshot.Stamp` | dags/covid_19_dags.py:103-104 | a stamped row gains `ingested_at` and `snapshot_date` with the given values; every other field is unchanged |
| `Snapshot.Stamped` | dags/covid_19_dags.py:99-105 | after the loop, rows are in the same order and number; each has `snapshot_date = ds` and the single shared `ingested_at`; other fields are untouched |
| `Snapshot.FetchToGcs` | dags/covid_19_dags.py:91-108 | the loop (mutating each row, appending its serialisation) yields the bucket, the key `ObjectName(ds)`, and the NDJSON of the stamped rows' serialisations, in order |
| `Snapshot.Ndjson` | dags/covid_19_dags.py:107 | `"\n".join(lines) + "\n"`: the text always ends in a newline, and an empty fetch is just `"\n"`; its framing properties are the `NdjsonTerminated`, `NdjsonSplit` and `NdjsonNewlines` rows |
| `Snapshot.NdjsonTerminated` | dags/covid_19_dags.py:107 | for a non-empty fetch, the text is each line followed by its own `"\n"`, in fetch order |
| `Snapshot.NdjsonSplit` | dags/covid_19_dags.py:107 | splitting the text on `"\n"` gives the lines, then the empty piece after the trailing newline; an empty fetch is the text `"\n"` |
| `Snapshot.NdjsonNewlines` | dags/covid_19_dags.py:107 | with newline-free lines, the text holds one newline per line, or one newline for an empty fetch |
| `Snapshot.ObjectName` | dags/covid_19_dags.py:108 | the key starts with `data/raw/covid/snapshot_date=` and ends in `.ndjson`; where `ds` sits and injectivity are the next two rows |
| `Snapshot.ObjectNamePartition` | dags/covid_19_dags.py:108 | the key holds `ds` at a fixed offset in its `snapshot_date=` segment, then `/countries_`, then `ds` again, followed by the `.ndjson` suffix |
| `Snapshot.ObjectNameInjective` | dags/covid_19_dags.py:108 | a rerun of a date writes the same key; distinct dates never share one |
| `Text.SplitJoin` | dags/covid_19_dags.py:107 | splitting on the separator undoes `"\n".join` of at least one line, when no line contains a newline (joining no lines gives `""`, which splits to `[""]`) |
| `Text.JoinSplit` | dags/covid_19_dags.py:107 | `"\n".join` undoes splitting, for every text |
| `Text.CountJoin` | dags/covid_19_dags.py:107 | `"\n".join` of newline-free lines holds one newline per gap |
| `Staging.ToSchemaRow` | dags/covid_19_dags.py:215-217 | a loaded row has exactly the schema's columns; an absent field is NULL; an object with only schema fields loses nothing |
| `Staging.Decode` | dags/covid_19_dags.py:210-221 | the load succeeds iff every record line parses and names only schema fields; it then yields one schema row per line, in order; otherwise it reports the first bad line and why it failed |
| `Staging.Load` | dags/covid_19_dags.py:210-221 | the load job reads the object's non-blank lines and succeeds iff every one is accepted, giving one schema row per line; a failure names a line of the object |
| `Staging.LoadToStaging` | dags/covid_19_dags.py:218 | `WRITE_TRUNCATE`: after a successful load, staging is exactly the loaded rows, whatever it held before; a failed load leaves it unchanged |
| `Staging.NonBlank` | dags/covid_19_dags.py:216 | the record lines are the non-blank lines of the text, each as many times as it occurs there; blank lines yield none |
| `Staging.RecordLinesOfNdjson` | dags/covid_19_dags.py:107 | the loader reads back exactly the lines the fetch task framed, in order; an empty fetch loads none |
| `Staging.LoadSerialized` | dags/covid_19_dags.py:209-218 | loading the framed object gives one schema row per fetched row, in order, iff no row has a field outside the schema; otherwise it fails at the first such row |
| `History.MatchIndex` | dags/covid_19_dags.py:232-233 | finds the first staging row whose key equals the history row's key, or proves that none does (NULL never matches) |
| `History.UpdateRow` | dags/covid_19_dags.py:234-258 | the SET list overwrites each listed column with the staging value; the key columns keep the history row's values |
| `History.Inserted` | dags/covid_19_dags.py:259-260 | the inserted rows are exactly the staging rows that no history row matches, and there are at most as many as staging rows |
| `History.InsertedCounts` | dags/covid_19_dags.py:259-260 | each staging row that no history row matches is inserted as many times as it occurs in staging; a matched staging row is not inserted at all |
| `History.UpdateAll` | dags/covid_19_dags.py:234-258 | `WHEN MATCHED THEN UPDATE` over the whole table: every history row stays, in place, with its key; the per-row effect is the `History.Merge` row |
| `History.Merge` | dags/covid_19_dags.py:230-260 | no history row is deleted or re-keyed; a matched row is updated from its staging row; an unmatched one is untouched; the rows added after the history rows are exactly `Inserted`: the unmatched staging rows, each once per occurrence in staging |
| `History.Upsert` | dags/covid_19_dags.py:230-233 | the MERGE job fails iff some history row matches two staging rows, and otherwise gives the merge |
| `History.UniqueSourceKeysSuffice` | dags/covid_19_dags.py:230-233 | a staging table with unique keys can never make the merge ambiguous |
| `History.UpdatedRowEqualsSource` | dags/covid_19_dags.py:234-258 | between schema rows, updating a matched history row makes it equal to the staging row |
| `History.MatchedRowBecomesSource` | dags/covid_19_dags.py:230-258 | between schema rows, after the merge, a history row matched by staging row `j` equals staging row `j` |
| `History.OtherDatesUntouched` | dags/covid_19_dags.py:230-233 | a history row whose date differs from every staging row's date is left as it was |
| `History.MergeKeepsShape` | dags/covid_19_dags.py:230-260 | the merged history still consists of schema rows |
| `History.MergeKeepsUniqueKeys` | dags/covid_19_dags.py:230-260 | unique history keys and unique staging keys give unique merged keys: at most one history row per non-NULL key (rows with a NULL key column never match, so they may repeat) |
| `History.MergeOverwrites` | dags/covid_19_dags.py:230-260 | merging S1 then S2, where S2 has S1's keys (unique, non-NULL), is the same as merging S2 alone, when S2 lists its keys in the same order as S1 |
| `History.MergeIdempotent` | dags/covid_19_dags.py:230-260 | when the staging keys are unique and non-NULL and the staging rows are schema rows, merging the same staging table twice changes nothing after the first time |
| `History.MergeIntoEmpty` | dags/covid_19_dags.py:259-260 | into an empty history, the merge inserts every staging row unchanged, in order |
| `History.NullCountryReinserted` | dags/covid_19_dags.py:232-233 | for any history and staging table BigQuery accepts, a merge leaves a NULL-`country` row as many times as history held it plus as many times as staging holds it |
| `History.UpdateAllKeepsNullRow` | dags/covid_19_dags.py:232-233 | the update step neither creates nor consumes a row whose `country` is NULL: it occurs as often afterwards as before |
| `History.NullCountryDuplicatedOnRerun` | dags/covid_19_dags.py:230-260 | merging the same staging table again adds one more copy of each NULL-`country` staging row per occurrence, so the merge is not idempotent on such rows |
| `Records.UpdateListCoversNonKeyColumns` | dags/covid_19_dags.py:236-258 | the SET list together with the key is the whole schema, and no key column is in the SET list |
| `Pipeline.RunDay` | dags/covid_19_dags.py:268 | the run writes to the date's key; history changes only if the whole run succeeds, and then it is the merge of the old history with the new staging |
| `Pipeline.RunDayStaging` | dags/covid_19_dags.py:209-221 | after a run whose fetched rows fit the schema, staging is exactly this run's stamped rows, in fetch order; only the merge can still fail |
| `Pipeline.StagedRowsKeyed` | dags/covid_19_dags.py:99-105 | a well-formed fetch stages one row per fetched row, the `k`-th keyed `(ds, country of fetched row k)`: unique, non-NULL, and identical whatever the ingestion time |
| `Pipeline.RerunSameDate` | dags/covid_19_dags.py:85-266 | for a fetch whose rows fit the schema and name each country once, never NULL, re-running a date with the same fetched rows, in the same order, writes to the same key, overwriting the object, and leaves the tables exactly as a single run at the later time would |
| `Pipeline.OtherDateRowsUntouched` | dags/covid_19_dags.py:224-266 | a run for one date never alters a history row of another date, whether or not the run succeeds |
| `Pipeline.TestlandExample` | dags/covid_19_dags.py:85-266 | a single "Testland" row on 2026-01-01 into an empty history goes to `data/raw/covid/snapshot_date=2026-01-01/countries_2026-01-01.ndjson`; history then has exactly that key, with cases 10 and deaths 1 |

## Left out

- History.MergeOverwrites: states the overwrite for a second staging table whose keys come in the same order as the first one's; a re-fetch that returns the same countries in another order is not covered.
- Pipeline.RerunSameDate: covers a re-run whose fetch returns the same rows in the same order, and only a well-formed fetch: rows within the schema, each country named once and never NULL. A NULL-country row is inserted again on every run (`History.NullCountryDuplicatedOnRerun`).
- The HTTP fetch (`requests.get`, `raise_for_status`, `resp.json`). This is network I/O. The decoded rows are an input, so a failed or non-JSON response, which would abort before any write, is not modelled.
- The object-store upload, the `Variable.get` bucket lookup and the XCom pushes. These are external storage and orchestrator side channels. The bucket is a parameter, and the (bucket, key, data, MIME type) are returned as an `Upload` value.
- The DAG definition: schedule, `catchup`, `max_active_runs`, retries and retry delay. Task chaining is modelled only as the order of the steps inside `Pipeline.RunDay`.
- The `CREATE SCHEMA` / `CREATE TABLE IF NOT EXISTS` statements. These are warehouse side effects. The model takes the history table as given, with the schema's columns.
- BigQuery's type checking of values against `BQ_SCHEMA`, and the parsing of the `snapshot_date` string into a DATE. Values are opaque. Only unknown fields are checked, and keys compare as the stamped strings (distinct dates give distinct strings, `Snapshot.FormatDateInjective`).
- FLOAT64 arithmetic and `countryInfo`'s contents. They are carried as opaque values.
- `pendulum`'s time-zone conversion and `now()`. The logical date comes as a UTC calendar date; the ingestion timestamp is an opaque string.
- The internals of `json.dumps`, including `ensure_ascii=False` and dict key order. It is an opaque `Row -> string` parameter whose output is non-empty and newline-free.
- Snapshot.FetchToGcs: rows are updated in a local copy. The model does not capture that the mutation is visible through other references to the decoded dicts; nothing in the DAG reads them afterwards.
- Snapshot.FormatDate: always pads the year to four digits. Some Python builds on glibc print years below 1000 without padding.
- Staging.Decode: the reported record index counts non-blank lines, not the line numbers BigQuery would report.
- Staging.RecordLinesOfNdjson: how BigQuery treats the blank line that an empty fetch produces is its own behaviour. The model skips blank lines.
- History.Merge: requires that no history row matches two staging rows, the condition BigQuery enforces. `History.Upsert` models the job's failure when that condition does not hold.
