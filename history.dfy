/**
 * The upsert task: one MERGE of the staging table (source S) into the
 * history table (target T), matched on (snapshot_date, country).  A matched
 * history row has every non-key column overwritten from S, an unmatched
 * staging row is inserted as it is, and an unmatched history row is left
 * alone.  Tables are sequences of rows; their order carries no meaning.
 */
module History {
  import opened Wrappers
  import opened Records

  /** SQL `a = b` in a join condition: NULL on either side never matches. */
  predicate SqlEquals(a: Value, b: Value) {
    a != Null && b != Null && a == b
  }

  /** `ON T.snapshot_date = S.snapshot_date AND T.country = S.country` */
  predicate Matches(t: Row, s: Row) {
    && SqlEquals(Col(t, SnapshotDateField), Col(s, SnapshotDateField))
    && SqlEquals(Col(t, CountryField), Col(s, CountryField))
  }

  /** The merge key of a row. */
  function Key(r: Row): (Value, Value) {
    (Col(r, SnapshotDateField), Col(r, CountryField))
  }

  /** Neither key column is NULL, so the row can match. */
  predicate HasKey(r: Row) {
    Col(r, SnapshotDateField) != Null && Col(r, CountryField) != Null
  }

  /** The index of the first staging row that `t` matches, if any. */
  function MatchIndex(t: Row, S: seq<Row>): (r: Option<nat>)
    ensures r.Some? ==> r.value < |S| && Matches(t, S[r.value])
    ensures r.Some? ==> forall j :: 0 <= j < r.value ==> !Matches(t, S[j])
    ensures r.None? <==> forall j :: 0 <= j < |S| ==> !Matches(t, S[j])
  {
    if S == [] then None
    else if Matches(t, S[0]) then Some(0)
    else match MatchIndex(t, S[1..])
      case None => None
      case Some(j) => Some(j + 1)
  }

  /**
   * `WHEN MATCHED THEN UPDATE SET ...`: every column of the SET list takes the
   * staging row's value; the key columns, which the list leaves out, keep the
   * history row's.
   */
  function UpdateRow(t: Row, s: Row): (r: Row)
    ensures Key(r) == Key(t)
    ensures forall c :: c in UpdatedColumns ==> Col(r, c) == Col(s, c)
    ensures forall c :: c !in UpdatedColumns ==> Col(r, c) == Col(t, c)
  {
    UpdateListCoversNonKeyColumns();
    t + SetList(s)
  }

  /** The values the SET list assigns: each listed column's value in `s`. */
  function SetList(s: Row): (m: Row)
    ensures m.Keys == UpdatedColumns
  {
    map c | c in UpdatedColumns :: Col(s, c)
  }

  /** Overriding twice with maps on the same columns is overriding with the second. */
  lemma OverrideTwice(t: Row, m1: Row, m2: Row)
    requires m1.Keys == m2.Keys
    ensures (t + m1) + m2 == t + m2
  {
  }

  /** What the MERGE does to one history row. */
  function ApplyMerge(t: Row, S: seq<Row>): Row {
    match MatchIndex(t, S)
    case None => t
    case Some(j) => UpdateRow(t, S[j])
  }

  /** The history table with every matched row updated in place. */
  function UpdateAll(H: seq<Row>, S: seq<Row>): (r: seq<Row>)
    ensures |r| == |H|
    ensures forall i :: 0 <= i < |H| ==> Key(r[i]) == Key(H[i])
  {
    seq(|H|, i requires 0 <= i < |H| => ApplyMerge(H[i], S))
  }

  /** No history row matches staging row `s`. */
  predicate NoMatch(s: Row, H: seq<Row>) {
    forall t :: t in H ==> !Matches(t, s)
  }

  /**
   * `WHEN NOT MATCHED THEN INSERT ROW`: the staging rows that no history row
   * matches, in staging order, each as many times as it occurs in staging.
   */
  function Inserted(H: seq<Row>, S: seq<Row>): (r: seq<Row>)
    ensures |r| <= |S|
    ensures forall s :: s in r <==> s in S && NoMatch(s, H)
  {
    if S == [] then []
    else (if NoMatch(S[0], H) then [S[0]] else []) + Inserted(H, S[1..])
  }

  /** Each unmatched staging row is inserted once per occurrence; a matched one not at all. */
  lemma {:induction false} InsertedCounts(H: seq<Row>, S: seq<Row>)
    ensures forall s :: multiset(Inserted(H, S))[s] == if NoMatch(s, H) then multiset(S)[s] else 0
  {
    if S != [] {
      InsertedCounts(H, S[1..]);
      assert S == [S[0]] + S[1..];
    }
  }

  /** BigQuery runs a MERGE only if no target row matches two source rows. */
  predicate AtMostOneMatch(H: seq<Row>, S: seq<Row>) {
    forall i, j1, j2 :: 0 <= i < |H| && 0 <= j1 < j2 < |S| ==> !(Matches(H[i], S[j1]) && Matches(H[i], S[j2]))
  }

  /** No two rows of the table share a (non-NULL) key. */
  predicate UniqueKeys(T: seq<Row>) {
    forall i, j :: 0 <= i < j < |T| ==> !Matches(T[i], T[j])
  }

  /** Every row has both key columns non-NULL. */
  predicate AllKeyed(T: seq<Row>) {
    forall k :: 0 <= k < |T| ==> HasKey(T[k])
  }

  /** Every row has exactly the schema's columns. */
  predicate ShapedTable(T: seq<Row>) {
    forall k :: 0 <= k < |T| ==> Shaped(T[k])
  }

  /**
   * The history table after the MERGE.  No history row is deleted or
   * re-keyed; a matched row is updated from its staging row; an unmatched
   * one is untouched; the rows added at the end are the staging rows no
   * history row matches, in staging order, each inserted once per
   * occurrence in staging.
   */
  function Merge(H: seq<Row>, S: seq<Row>): (r: seq<Row>)
    requires AtMostOneMatch(H, S)
    ensures |H| <= |r| <= |H| + |S|
    ensures forall i :: 0 <= i < |H| ==> Key(r[i]) == Key(H[i])
    ensures forall i, j :: 0 <= i < |H| && 0 <= j < |S| && Matches(H[i], S[j]) ==> r[i] == UpdateRow(H[i], S[j])
    ensures forall i :: 0 <= i < |H| && (forall j :: 0 <= j < |S| ==> !Matches(H[i], S[j])) ==> r[i] == H[i]
    ensures forall x :: x in r[|H|..] <==> x in S && NoMatch(x, H)
    ensures r[|H|..] == Inserted(H, S)
  {
    var u := UpdateAll(H, S);
    var ins := Inserted(H, S);
    assert (u + ins)[|H|..] == ins;
    u + ins
  }

  datatype MergeError = AmbiguousSourceMatch

  /** The MERGE job: rejected when a history row matches two staging rows. */
  function Upsert(H: seq<Row>, S: seq<Row>): (r: Result<seq<Row>, MergeError>)
    ensures r.Ok? <==> AtMostOneMatch(H, S)
    ensures r.Ok? ==> r.value == Merge(H, S)
  {
    if AtMostOneMatch(H, S) then Ok(Merge(H, S)) else Err(AmbiguousSourceMatch)
  }

  // ---------------------------------------------------------------------
  // Properties of one merge
  // ---------------------------------------------------------------------

  /** A staging table without repeated keys can never make the MERGE ambiguous. */
  lemma UniqueSourceKeysSuffice(H: seq<Row>, S: seq<Row>)
    requires UniqueKeys(S)
    ensures AtMostOneMatch(H, S)
  {
    forall i, j1, j2 | 0 <= i < |H| && 0 <= j1 < j2 < |S|
      ensures !(Matches(H[i], S[j1]) && Matches(H[i], S[j2]))
    {
      assert !Matches(S[j1], S[j2]);
    }
  }

  /** Between schema rows, the update makes the history row equal to the staging row. */
  lemma UpdatedRowEqualsSource(t: Row, s: Row)
    requires Shaped(t) && Shaped(s) && Matches(t, s)
    ensures UpdateRow(t, s) == s
  {
    UpdateListCoversNonKeyColumns();
    var r := UpdateRow(t, s);
    assert r.Keys == Columns;
    forall c | c in Columns ensures r[c] == s[c] {
      assert Col(r, c) == Col(s, c);
    }
  }

  /** A history row matched by staging row `j` ends up equal to that staging row. */
  lemma MatchedRowBecomesSource(H: seq<Row>, S: seq<Row>, i: nat, j: nat)
    requires AtMostOneMatch(H, S) && ShapedTable(H) && ShapedTable(S)
    requires i < |H| && j < |S| && Matches(H[i], S[j])
    ensures Merge(H, S)[i] == S[j]
  {
    UpdatedRowEqualsSource(H[i], S[j]);
  }

  /**
   * A history row for another snapshot date than every staging row is left
   * untouched by the merge.
   */
  lemma OtherDatesUntouched(H: seq<Row>, S: seq<Row>, i: nat)
    requires AtMostOneMatch(H, S)
    requires i < |H|
    requires forall j :: 0 <= j < |S| ==> Col(S[j], SnapshotDateField) != Col(H[i], SnapshotDateField)
    ensures Merge(H, S)[i] == H[i]
  {
  }

  lemma MergeKeepsShape(H: seq<Row>, S: seq<Row>)
    requires AtMostOneMatch(H, S) && ShapedTable(H) && ShapedTable(S)
    ensures ShapedTable(Merge(H, S))
  {
    UpdateListCoversNonKeyColumns();
    var r := Merge(H, S);
    forall k | 0 <= k < |r| ensures Shaped(r[k]) {
      if k >= |H| {
        assert r[k] in r[|H|..];
      }
    }
  }

  lemma {:induction false} InsertedKeepsUniqueKeys(H: seq<Row>, S: seq<Row>)
    requires UniqueKeys(S)
    ensures UniqueKeys(Inserted(H, S))
  {
    if S != [] {
      var rest := Inserted(H, S[1..]);
      assert UniqueKeys(S[1..]);
      InsertedKeepsUniqueKeys(H, S[1..]);
      if NoMatch(S[0], H) {
        var r := [S[0]] + rest;
        forall i, j | 0 <= i < j < |r| ensures !Matches(r[i], r[j]) {
          if i > 0 {
            assert r[i] == rest[i - 1] && r[j] == rest[j - 1];
          } else {
            assert r[j] in S[1..];
            var m :| 0 <= m < |S[1..]| && S[1..][m] == r[j];
            assert !Matches(S[0], S[m + 1]);
          }
        }
      }
    }
  }

  /** Unique keys in both tables stay unique: at most one history row per key. */
  lemma MergeKeepsUniqueKeys(H: seq<Row>, S: seq<Row>)
    requires UniqueKeys(H) && UniqueKeys(S)
    ensures AtMostOneMatch(H, S)
    ensures UniqueKeys(Merge(H, S))
  {
    UniqueSourceKeysSuffice(H, S);
    InsertedKeepsUniqueKeys(H, S);
    var u := UpdateAll(H, S);
    var ins := Inserted(H, S);
    var r := Merge(H, S);
    assert r == u + ins;
    forall i, j | 0 <= i < j < |r| ensures !Matches(r[i], r[j]) {
      if j < |H| {
        assert !Matches(H[i], H[j]);
      } else if i < |H| {
        assert r[j] in ins;
        assert !Matches(H[i], r[j]);
      } else {
        assert r[i] == ins[i - |H|] && r[j] == ins[j - |H|];
      }
    }
  }

  // ---------------------------------------------------------------------
  // Merging again: later staging overwrites, nothing is duplicated
  // ---------------------------------------------------------------------

  /** Two staging tables whose rows carry the same keys, position by position. */
  predicate SameKeys(S1: seq<Row>, S2: seq<Row>) {
    |S1| == |S2| && forall j :: 0 <= j < |S1| ==> Key(S1[j]) == Key(S2[j])
  }

  lemma {:induction false} MatchIndexByKey(t1: Row, t2: Row, S1: seq<Row>, S2: seq<Row>)
    requires Key(t1) == Key(t2) && SameKeys(S1, S2)
    ensures MatchIndex(t1, S1) == MatchIndex(t2, S2)
  {
    if S1 != [] {
      assert Matches(t1, S1[0]) == Matches(t2, S2[0]);
      assert SameKeys(S1[1..], S2[1..]);
      MatchIndexByKey(t1, t2, S1[1..], S2[1..]);
    }
  }

  /** A history row merged with S1 and then with S2 ends as if merged with S2 alone. */
  lemma ApplyMergeTwice(t: Row, S1: seq<Row>, S2: seq<Row>)
    requires SameKeys(S1, S2)
    ensures ApplyMerge(ApplyMerge(t, S1), S2) == ApplyMerge(t, S2)
  {
    MatchIndexByKey(t, t, S1, S2);
    match MatchIndex(t, S1)
    case None =>
    case Some(j) =>
      var u := UpdateRow(t, S1[j]);
      MatchIndexByKey(u, t, S2, S1);
      OverrideTwice(t, SetList(S1[j]), SetList(S2[j]));
  }

  lemma UpdateAllAppend(a: seq<Row>, b: seq<Row>, S: seq<Row>)
    ensures UpdateAll(a + b, S) == UpdateAll(a, S) + UpdateAll(b, S)
  {
  }

  /** A row of S1 merged against S2, whose keys are S1's and unique, becomes its S2 counterpart. */
  lemma MatchesOwnCounterpart(S1: seq<Row>, S2: seq<Row>, j: nat)
    requires SameKeys(S1, S2) && UniqueKeys(S2) && AllKeyed(S2)
    requires ShapedTable(S1) && ShapedTable(S2)
    requires j < |S1|
    ensures ApplyMerge(S1[j], S2) == S2[j]
  {
    assert Matches(S1[j], S2[j]);
    UpdatedRowEqualsSource(S1[j], S2[j]);
  }

  lemma {:induction false} InsertedOverwritten(H: seq<Row>, S1: seq<Row>, S2: seq<Row>, F: seq<Row>)
    requires SameKeys(S1, S2)
    requires forall j :: 0 <= j < |S1| ==> ApplyMerge(S1[j], F) == S2[j]
    ensures UpdateAll(Inserted(H, S1), F) == Inserted(H, S2)
  {
    if S1 != [] {
      assert SameKeys(S1[1..], S2[1..]);
      InsertedOverwritten(H, S1[1..], S2[1..], F);
      assert NoMatch(S1[0], H) == NoMatch(S2[0], H) by {
        forall t | t in H ensures Matches(t, S1[0]) == Matches(t, S2[0]) {
        }
      }
      var head := if NoMatch(S1[0], H) then [S1[0]] else [];
      UpdateAllAppend(head, Inserted(H, S1[1..]), F);
    }
  }

  /** A staging table every row of which is matched leaves nothing to insert. */
  lemma {:induction false} NothingInserted(T: seq<Row>, S: seq<Row>)
    requires forall j :: 0 <= j < |S| ==> !NoMatch(S[j], T)
    ensures Inserted(T, S) == []
  {
    if S != [] {
      assert !NoMatch(S[0], T);
      NothingInserted(T, S[1..]);
    }
  }

  /**
   * Merging S1 and then S2, where S2 carries S1's keys, unique and non-NULL,
   * gives the history that merging S2 alone gives: the second merge
   * overwrites what the first wrote and inserts nothing.
   */
  lemma MergeOverwrites(H: seq<Row>, S1: seq<Row>, S2: seq<Row>)
    requires SameKeys(S1, S2) && UniqueKeys(S2) && AllKeyed(S2)
    requires ShapedTable(S1) && ShapedTable(S2)
    ensures AtMostOneMatch(H, S1) && AtMostOneMatch(H, S2)
    ensures AtMostOneMatch(Merge(H, S1), S2)
    ensures Merge(Merge(H, S1), S2) == Merge(H, S2)
  {
    assert UniqueKeys(S1) by {
      forall i, j | 0 <= i < j < |S1| ensures !Matches(S1[i], S1[j]) {
        assert !Matches(S2[i], S2[j]);
      }
    }
    UniqueSourceKeysSuffice(H, S1);
    UniqueSourceKeysSuffice(H, S2);
    var m1 := Merge(H, S1);
    UniqueSourceKeysSuffice(m1, S2);
    var u1 := UpdateAll(H, S1);
    var ins1 := Inserted(H, S1);
    assert m1 == u1 + ins1;
    UpdateAllAppend(u1, ins1, S2);
    assert UpdateAll(u1, S2) == UpdateAll(H, S2) by {
      forall i | 0 <= i < |H| ensures UpdateAll(u1, S2)[i] == UpdateAll(H, S2)[i] {
        ApplyMergeTwice(H[i], S1, S2);
      }
    }
    forall j | 0 <= j < |S1| ensures ApplyMerge(S1[j], S2) == S2[j] {
      MatchesOwnCounterpart(S1, S2, j);
    }
    InsertedOverwritten(H, S1, S2, S2);
    forall j | 0 <= j < |S2| ensures !NoMatch(S2[j], m1) {
      MergedMatchesCounterpart(H, S1, S2, j);
    }
    NothingInserted(m1, S2);
  }

  /** After merging S1, some history row matches the counterpart in S2 of each S1 row. */
  lemma MergedMatchesCounterpart(H: seq<Row>, S1: seq<Row>, S2: seq<Row>, j: int)
    requires SameKeys(S1, S2) && AllKeyed(S2) && AtMostOneMatch(H, S1)
    requires 0 <= j < |S2|
    ensures !NoMatch(S2[j], Merge(H, S1))
  {
    var m1 := Merge(H, S1);
    assert Matches(S1[j], S2[j]);
    if NoMatch(S1[j], H) {
      assert S1[j] in m1[|H|..];
      var k :| 0 <= k < |m1| - |H| && m1[|H|..][k] == S1[j];
      assert m1[|H| + k] in m1;
    } else {
      var t :| t in H && Matches(t, S1[j]);
      var i :| 0 <= i < |H| && H[i] == t;
      assert Key(m1[i]) == Key(t);
      assert Matches(m1[i], S2[j]);
      assert m1[i] in m1;
    }
  }

  /**
   * Merging the same staging table a second time changes nothing, when its
   * keys are unique and non-NULL and its rows are schema rows.
   */
  lemma MergeIdempotent(H: seq<Row>, S: seq<Row>)
    requires UniqueKeys(S) && AllKeyed(S) && ShapedTable(S)
    ensures AtMostOneMatch(H, S) && AtMostOneMatch(Merge(H, S), S)
    ensures Merge(Merge(H, S), S) == Merge(H, S)
  {
    MergeOverwrites(H, S, S);
  }

  /** Into an empty history, the merge inserts every staging row unchanged, in order. */
  lemma {:induction false} MergeIntoEmpty(S: seq<Row>)
    ensures AtMostOneMatch([], S)
    ensures Merge([], S) == S
  {
    if S != [] {
      MergeIntoEmpty(S[1..]);
      assert NoMatch(S[0], []);
      assert [S[0]] + S[1..] == S;
    }
  }

  /** A row whose country is NULL comes out of the update step exactly as often as it went in. */
  lemma {:induction false} UpdateAllKeepsNullRow(H: seq<Row>, S: seq<Row>, s: Row)
    requires Col(s, CountryField) == Null
    ensures multiset(UpdateAll(H, S))[s] == multiset(H)[s]
  {
    if H != [] {
      UpdateAllKeepsNullRow(H[1..], S, s);
      UpdateAllCons(H, S);
      var rest := UpdateAll(H[1..], S);
      assert multiset(UpdateAll(H, S)) == multiset([ApplyMerge(H[0], S)]) + multiset(rest);
      assert H == [H[0]] + H[1..];
      ApplyMergeNullRow(H[0], S, s);
    }
  }

  /** The update step, one history row at a time. */
  lemma UpdateAllCons(H: seq<Row>, S: seq<Row>)
    requires H != []
    ensures UpdateAll(H, S) == [ApplyMerge(H[0], S)] + UpdateAll(H[1..], S)
  {
  }

  /** The update step turns a history row into a NULL-country row `s` only when it already is `s`. */
  lemma ApplyMergeNullRow(t: Row, S: seq<Row>, s: Row)
    requires Col(s, CountryField) == Null
    ensures ApplyMerge(t, S) == s <==> t == s
  {
    if t == s {
      assert MatchIndex(s, S) == None;
    } else if MatchIndex(t, S).Some? {
      assert Col(t, CountryField) != Null;
      assert Key(ApplyMerge(t, S)) != Key(s);
    }
  }

  /**
   * A staging row whose country is NULL matches nothing: every merge inserts
   * each of its occurrences again, beside the copies history already holds.
   */
  lemma NullCountryReinserted(H: seq<Row>, S: seq<Row>, s: Row)
    requires AtMostOneMatch(H, S)
    requires Col(s, CountryField) == Null
    ensures multiset(Merge(H, S))[s] == multiset(H)[s] + multiset(S)[s]
  {
    UpdateAllKeepsNullRow(H, S, s);
    InsertedCounts(H, S);
    var r := Merge(H, S);
    assert r == UpdateAll(H, S) + Inserted(H, S);
    assert NoMatch(s, H);
  }

  /**
   * Without a non-NULL key the merge is not idempotent: merging the same
   * staging table again adds another copy of every NULL-country row.
   */
  lemma NullCountryDuplicatedOnRerun(H: seq<Row>, S: seq<Row>, s: Row)
    requires AtMostOneMatch(H, S) && AtMostOneMatch(Merge(H, S), S)
    requires s in S && Col(s, CountryField) == Null
    ensures multiset(Merge(Merge(H, S), S))[s] == multiset(Merge(H, S))[s] + multiset(S)[s]
    ensures multiset(Merge(Merge(H, S), S))[s] > multiset(Merge(H, S))[s]
  {
    NullCountryReinserted(Merge(H, S), S, s);
  }
}
