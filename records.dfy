/**
 * The records that travel through the pipeline: one fetched country object,
 * as JSON, and one row of the staging or history table.
 */
module Records {

  /**
   * A JSON value as the statistics endpoint returns it.  FLOAT64 measures are
   * carried by their IEEE-754 bits and never computed with; `countryInfo` is
   * a nested object.
   */
  datatype Value =
    | Null
    | Bool(b: bool)
    | Int(i: int)
    | Float(bits: bv64)
    | Str(s: string)
    | Object(fields: map<string, Value>)

  /** A record: field (or column) name to value.  An absent field reads as NULL. */
  type Row = map<string, Value>

  const CountryField := "country"
  const SnapshotDateField := "snapshot_date"
  const IngestedAtField := "ingested_at"

  /** The top-level columns of the staging and history schema, in schema order. */
  const Columns: set<string> := {
    "updated", "country", "continent", "population", "cases", "todayCases",
    "deaths", "todayDeaths", "recovered", "todayRecovered", "active",
    "critical", "tests", "casesPerOneMillion", "deathsPerOneMillion",
    "testsPerOneMillion", "oneCasePerPeople", "oneDeathPerPeople",
    "oneTestPerPeople", "activePerOneMillion", "recoveredPerOneMillion",
    "criticalPerOneMillion", "countryInfo", "ingested_at", "snapshot_date"
  }

  /** The merge key, (snapshot_date, country). */
  const KeyColumns: set<string> := {SnapshotDateField, CountryField}

  /** The columns the MERGE's `UPDATE SET` list overwrites, `updated` through `ingested_at`. */
  const UpdatedColumns: set<string> := {
    "updated", "continent", "population", "cases", "todayCases", "deaths",
    "todayDeaths", "recovered", "todayRecovered", "active", "critical",
    "tests", "casesPerOneMillion", "deathsPerOneMillion", "testsPerOneMillion",
    "oneCasePerPeople", "oneDeathPerPeople", "oneTestPerPeople",
    "activePerOneMillion", "recoveredPerOneMillion", "criticalPerOneMillion",
    "countryInfo", "ingested_at"
  }

  /** The value of a column; a column the record lacks is NULL. */
  function Col(r: Row, name: string): Value {
    if name in r then r[name] else Null
  }

  /** A row of the table schema: exactly the schema's columns. */
  predicate Shaped(r: Row) {
    r.Keys == Columns
  }

  /**
   * The `UPDATE SET` list and the key together are the whole schema: every
   * non-key column is overwritten and no key column is.
   */
  lemma UpdateListCoversNonKeyColumns()
    ensures Columns == UpdatedColumns + KeyColumns
    ensures UpdatedColumns !! KeyColumns
  {
  }
}
