/** A table with one unique key, and the inserts that seeding asks of it. */
module SeedTable {
  import opened Base

  type Row = map<string, int>

  type Key = seq<Option<int>>

  datatype Dialect = Sqlite | Postgres

  datatype Table = Table(dialect: Dialect, unique: seq<string>, rows: seq<Row>)

  /** The values of the unique columns; a column that is absent is null. */
  function KeyOf(row: Row, unique: seq<string>): (key: Key)
    ensures |key| == |unique|
  {
    seq(|unique|, i requires 0 <= i < |unique| => if unique[i] in row then Some(row[unique[i]]) else None)
  }

  /** The row carries its unique key: null conflicts with nothing. */
  predicate Carries(row: Row, unique: seq<string>) { None !in KeyOf(row, unique) }

  /** The row with this key. */
  function Find(rows: seq<Row>, unique: seq<string>, key: Key): (found: Option<Row>)
    ensures found.Some? ==> found.value in rows && KeyOf(found.value, unique) == key && None !in key
  {
    if rows == [] || None in key then None
    else if KeyOf(rows[0], unique) == key then Some(rows[0])
    else Find(rows[1..], unique, key)
  }

  datatype Strategy = Skip | Fail | Replace

  datatype Written = Written(rows: seq<Row>, returned: seq<Row>)

  /** onConflictDoNothing: rows whose key is taken, also by an earlier row, are left out. */
  function InsertSkip(rows: seq<Row>, offered: seq<Row>, unique: seq<string>): (w: Written)
    ensures rows <= w.rows && w.rows == rows + w.returned && |w.returned| <= |offered|
  {
    if offered == [] then Written(rows, [])
    else
      var n := |offered| - 1;
      var w, row := InsertSkip(rows, offered[..n], unique), offered[n];
      if Find(w.rows, unique, KeyOf(row, unique)).Some? then w else Written(w.rows + [row], w.returned + [row])
  }

  /** The row with this key becomes `row`. */
  function Overwrite(rows: seq<Row>, row: Row, unique: seq<string>): seq<Row> {
    if rows == [] then []
    else if KeyOf(rows[0], unique) == KeyOf(row, unique) then [row] + rows[1..]
    else [rows[0]] + Overwrite(rows[1..], row, unique)
  }

  /** onConflictDoUpdate: a taken key's row is overwritten. */
  function Upsert(rows: seq<Row>, offered: seq<Row>, unique: seq<string>): Written {
    if offered == [] then Written(rows, [])
    else
      var n := |offered| - 1;
      var w, row := Upsert(rows, offered[..n], unique), offered[n];
      Written(if Find(w.rows, unique, KeyOf(row, unique)).Some? then Overwrite(w.rows, row, unique) else w.rows + [row],
        w.returned + [row])
  }

  /** Two rows with one key in the same statement. */
  predicate RepeatsKey(offered: seq<Row>, unique: seq<string>) {
    exists i, j :: 0 <= i < j < |offered| && Carries(offered[i], unique)
      && KeyOf(offered[i], unique) == KeyOf(offered[j], unique)
  }

  /**
    The three inserts. A plain insert fails as a whole when any row conflicts, and PostgreSQL
    refuses to overwrite a row twice in one statement.
   */
  function Insert(table: Table, offered: seq<Row>, strategy: Strategy): Option<Written> {
    match strategy
    case Skip => Some(InsertSkip(table.rows, offered, table.unique))
    case Fail =>
      var w := InsertSkip(table.rows, offered, table.unique);
      if |w.returned| < |offered| then None else Some(w)
    case Replace =>
      if table.dialect.Postgres? && RepeatsKey(offered, table.unique) then None
      else Some(Upsert(table.rows, offered, table.unique))
  }

  /** The live rows of the offered keys, in the order offered. */
  function QueryBack(rows: seq<Row>, offered: seq<Row>, unique: seq<string>): seq<Row> {
    if offered == [] then []
    else
      var n := |offered| - 1;
      var found := Find(rows, unique, KeyOf(offered[n], unique));
      QueryBack(rows, offered[..n], unique) + if found.Some? then [found.value] else []
  }

  method QueryBackRows(table: Table, offered: seq<Row>) returns (results: seq<Row>)
    ensures results == QueryBack(table.rows, offered, table.unique)
  {
    results := [];
    for i := 0 to |offered|
      invariant results == QueryBack(table.rows, offered[..i], table.unique)
    {
      assert offered[..i + 1][..i] == offered[..i];
      var found := Find(table.rows, table.unique, KeyOf(offered[i], table.unique));
      if found.Some? { results := results + [found.value]; }
    }
    assert offered[..|offered|] == offered;
  }

  // ---------------------------------------------------------------------------
  // What the inserts guarantee
  // ---------------------------------------------------------------------------

  lemma {:induction false} FindConcat(a: seq<Row>, b: seq<Row>, unique: seq<string>, key: Key)
    ensures Find(a + b, unique, key)
      == if Find(a, unique, key).Some? then Find(a, unique, key) else Find(b, unique, key)
  {
    if a == [] {
      assert a + b == b;
    } else {
      assert (a + b)[1..] == a[1..] + b;
      FindConcat(a[1..], b, unique, key);
    }
  }

  lemma FindOne(row: Row, unique: seq<string>, key: Key)
    ensures Find([row], unique, key) == if KeyOf(row, unique) == key && None !in key then Some(row) else None
  {}

  /** After a skipping insert every offered key that is carried has a row. */
  lemma {:induction false} SkipFillsKeys(rows: seq<Row>, offered: seq<Row>, unique: seq<string>, i: nat)
    requires i < |offered| && Carries(offered[i], unique)
    ensures Find(InsertSkip(rows, offered, unique).rows, unique, KeyOf(offered[i], unique)).Some?
    decreases |offered|
  {
    hide KeyOf;
    var n := |offered| - 1;
    var w, key := InsertSkip(rows, offered[..n], unique), KeyOf(offered[i], unique);
    FindConcat(w.rows, [offered[n]], unique, key);
    FindOne(offered[n], unique, key);
    if i < n { SkipFillsKeys(rows, offered[..n], unique, i); }
  }

  /** Rows that were there are found as they were, whatever is inserted beside them. */
  lemma SkipKeepsRows(rows: seq<Row>, offered: seq<Row>, unique: seq<string>, key: Key)
    requires Find(rows, unique, key).Some?
    ensures Find(InsertSkip(rows, offered, unique).rows, unique, key) == Find(rows, unique, key)
  {
    FindConcat(rows, InsertSkip(rows, offered, unique).returned, unique, key);
  }

  /** Where every offered key is taken, a skipping insert writes nothing. */
  lemma {:induction false} SkipOfTaken(rows: seq<Row>, offered: seq<Row>, unique: seq<string>)
    requires forall i :: 0 <= i < |offered| ==> Find(rows, unique, KeyOf(offered[i], unique)).Some?
    ensures InsertSkip(rows, offered, unique) == Written(rows, [])
  {
    if offered != [] {
      var n := |offered| - 1;
      assert forall i :: 0 <= i < n ==> offered[..n][i] == offered[i];
      SkipOfTaken(rows, offered[..n], unique);
    }
  }

  predicate SameKeys(a: seq<Row>, b: seq<Row>, unique: seq<string>) {
    |a| == |b| && forall i :: 0 <= i < |a| ==> KeyOf(a[i], unique) == KeyOf(b[i], unique)
  }

  predicate AllCarry(offered: seq<Row>, unique: seq<string>) {
    forall i :: 0 <= i < |offered| ==> Carries(offered[i], unique)
  }

  /** Rows with the same keys a second time: nothing is written. */
  lemma SkipAgain(rows: seq<Row>, offered: seq<Row>, again: seq<Row>, unique: seq<string>)
    requires AllCarry(offered, unique) && SameKeys(offered, again, unique)
    ensures var after := InsertSkip(rows, offered, unique).rows; InsertSkip(after, again, unique) == Written(after, [])
  {
    var after := InsertSkip(rows, offered, unique).rows;
    forall i | 0 <= i < |again| ensures Find(after, unique, KeyOf(again[i], unique)).Some? {
      SkipFillsKeys(rows, offered, unique, i);
    }
    SkipOfTaken(after, again, unique);
  }

  /** A row without its key conflicts with nothing: it is inserted every time. */
  lemma {:induction false} KeylessIsInserted(rows: seq<Row>, offered: seq<Row>, unique: seq<string>, i: nat)
    requires i < |offered| && !Carries(offered[i], unique)
    ensures InsertSkip(rows, offered, unique).returned != []
    decreases |offered|
  {
    hide KeyOf;
    var n := |offered| - 1;
    if i < n { KeylessIsInserted(rows, offered[..n], unique, i); }
  }

  /** Offering the same rows again writes nothing exactly when each of them carries its unique key. */
  lemma SameRowsAgain(rows: seq<Row>, offered: seq<Row>, unique: seq<string>)
    ensures var after := InsertSkip(rows, offered, unique).rows;
      InsertSkip(after, offered, unique) == Written(after, []) <==> AllCarry(offered, unique)
  {
    var after := InsertSkip(rows, offered, unique).rows;
    if AllCarry(offered, unique) {
      SkipAgain(rows, offered, offered, unique);
    } else {
      var i :| 0 <= i < |offered| && !Carries(offered[i], unique);
      KeylessIsInserted(after, offered, unique, i);
    }
  }

  /** What is queried back depends on the keys alone. */
  lemma {:induction false} QueryBackByKey(rows: seq<Row>, a: seq<Row>, b: seq<Row>, unique: seq<string>)
    requires SameKeys(a, b, unique)
    ensures QueryBack(rows, a, unique) == QueryBack(rows, b, unique)
  {
    if a != [] {
      var n := |a| - 1;
      assert forall i :: 0 <= i < n ==> a[..n][i] == a[i] && b[..n][i] == b[i];
      QueryBackByKey(rows, a[..n], b[..n], unique);
    }
  }

  /** The live row of every offered key, in order. */
  lemma {:induction false} QueryBackFindsAll(rows: seq<Row>, offered: seq<Row>, unique: seq<string>)
    requires forall i :: 0 <= i < |offered| ==> Find(rows, unique, KeyOf(offered[i], unique)).Some?
    ensures var live := QueryBack(rows, offered, unique);
      && |live| == |offered|
      && forall i :: 0 <= i < |live| ==> Find(rows, unique, KeyOf(offered[i], unique)) == Some(live[i])
  {
    hide KeyOf, Find;
    if offered != [] {
      var n := |offered| - 1;
      var front := offered[..n];
      assert forall i :: 0 <= i < n ==> front[i] == offered[i];
      QueryBackFindsAll(rows, front, unique);
      var found := Find(rows, unique, KeyOf(offered[n], unique));
      assert QueryBack(rows, offered, unique) == QueryBack(rows, front, unique) + [found.value];
    }
  }

  // ---------------------------------------------------------------------------
  // Replacing
  // ---------------------------------------------------------------------------

  lemma {:induction false} FindOverwritten(rows: seq<Row>, row: Row, unique: seq<string>, key: Key)
    requires Find(rows, unique, KeyOf(row, unique)).Some?
    ensures Find(Overwrite(rows, row, unique), unique, key)
      == if key == KeyOf(row, unique) then Some(row) else Find(rows, unique, key)
  {
    var next := Overwrite(rows, row, unique);
    if KeyOf(rows[0], unique) == KeyOf(row, unique) {
      assert next[1..] == rows[1..];
    } else {
      assert next[1..] == Overwrite(rows[1..], row, unique);
      FindOverwritten(rows[1..], row, unique, key);
    }
  }

  /** After an upsert every offered key holds the last row offered for it; other keys are untouched. */
  lemma {:induction false} UpsertHolds(rows: seq<Row>, offered: seq<Row>, unique: seq<string>, key: Key)
    requires AllCarry(offered, unique)
    ensures Find(Upsert(rows, offered, unique).rows, unique, key)
      == if LastWith(offered, unique, key).Some? then LastWith(offered, unique, key) else Find(rows, unique, key)
    decreases |offered|
  {
    hide KeyOf, Find, Overwrite;
    if offered != [] {
      var n := |offered| - 1;
      var w, row := Upsert(rows, offered[..n], unique), offered[n];
      assert forall i :: 0 <= i < n ==> offered[..n][i] == offered[i];
      UpsertHolds(rows, offered[..n], unique, key);
      if Find(w.rows, unique, KeyOf(row, unique)).Some? {
        FindOverwritten(w.rows, row, unique, key);
      } else {
        FindConcat(w.rows, [row], unique, key);
        FindOne(row, unique, key);
      }
    }
  }

  function LastWith(offered: seq<Row>, unique: seq<string>, key: Key): Option<Row> {
    if offered == [] then None
    else if KeyOf(offered[|offered| - 1], unique) == key then Some(offered[|offered| - 1])
    else LastWith(offered[..|offered| - 1], unique, key)
  }

  /**
    What a replacing insert leaves: on SQLite the last row offered for each key; PostgreSQL takes
    only offers without a repeated key, and so the row offered.
   */
  lemma ReplaceHolds(table: Table, offered: seq<Row>, i: nat)
    requires i < |offered| && AllCarry(offered, table.unique)
    ensures Insert(table, offered, Replace).None? <==> table.dialect.Postgres? && RepeatsKey(offered, table.unique)
    ensures Insert(table, offered, Replace).Some? ==>
      var key := KeyOf(offered[i], table.unique);
      && Find(Insert(table, offered, Replace).value.rows, table.unique, key) == LastWith(offered, table.unique, key)
      && (!RepeatsKey(offered, table.unique) ==> LastWith(offered, table.unique, key) == Some(offered[i]))
  {
    hide KeyOf, Find, Upsert, LastWith;
    var key := KeyOf(offered[i], table.unique);
    UpsertHolds(table.rows, offered, table.unique, key);
    LastIsAfter(offered, table.unique, i);
  }

  /** The last row with a key is the one at `i`, or one after it. */
  lemma {:induction false} LastIsAfter(offered: seq<Row>, unique: seq<string>, i: nat)
    requires i < |offered|
    ensures var last := LastWith(offered, unique, KeyOf(offered[i], unique));
      && last.Some?
      && exists j ::
        i <= j < |offered| && last == Some(offered[j]) && KeyOf(offered[j], unique) == KeyOf(offered[i], unique)
    decreases |offered|
  {
    hide KeyOf;
    var n := |offered| - 1;
    if KeyOf(offered[n], unique) == KeyOf(offered[i], unique) {
      assert LastWith(offered, unique, KeyOf(offered[i], unique)) == Some(offered[n]);
    } else {
      LastIsAfter(offered[..n], unique, i);
      var j :| i <= j < n && LastWith(offered[..n], unique, KeyOf(offered[i], unique)) == Some(offered[..n][j])
        && KeyOf(offered[..n][j], unique) == KeyOf(offered[i], unique);
      assert offered[..n][j] == offered[j];
    }
  }

  /** No row before this one has its key. */
  predicate FirstOf(rows: seq<Row>, unique: seq<string>, i: nat)
    requires i < |rows|
  {
    forall j :: 0 <= j < i ==> KeyOf(rows[j], unique) != KeyOf(rows[i], unique)
  }

  lemma {:induction false} FirstIsFound(rows: seq<Row>, unique: seq<string>, i: nat)
    requires i < |rows| && FirstOf(rows, unique, i) && Carries(rows[i], unique)
    ensures Find(rows, unique, KeyOf(rows[i], unique)) == Some(rows[i])
  {
    hide KeyOf;
    if i > 0 {
      assert forall j :: 0 <= j < i - 1 ==> rows[1..][j] == rows[j + 1];
      assert KeyOf(rows[0], unique) != KeyOf(rows[i], unique);
      FirstIsFound(rows[1..], unique, i - 1);
    }
  }

  /** The same keys at the same places, and the same rows but for the first ones of keys that are carried. */
  predicate SamePlaces(rows: seq<Row>, next: seq<Row>, unique: seq<string>) {
    && SameKeys(rows, next, unique)
    && forall i :: 0 <= i < |rows| ==> next[i] == rows[i] || (FirstOf(rows, unique, i) && Carries(rows[i], unique))
  }

  lemma {:induction false} OverwriteLength(rows: seq<Row>, row: Row, unique: seq<string>)
    ensures |Overwrite(rows, row, unique)| == |rows|
  {
    if rows != [] { OverwriteLength(rows[1..], row, unique); }
  }

  /** Overwriting changes nothing but the first row of the key. */
  lemma {:induction false} OverwriteChangesFirst(rows: seq<Row>, row: Row, unique: seq<string>, i: nat)
    requires i < |rows|
    ensures var next := Overwrite(rows, row, unique);
      && |next| == |rows| && KeyOf(next[i], unique) == KeyOf(rows[i], unique)
      && (next[i] == rows[i] || (FirstOf(rows, unique, i) && KeyOf(rows[i], unique) == KeyOf(row, unique)))
    decreases i
  {
    hide KeyOf;
    OverwriteLength(rows, row, unique);
    if KeyOf(rows[0], unique) != KeyOf(row, unique) && i > 0 {
      var rest := Overwrite(rows[1..], row, unique);
      OverwriteChangesFirst(rows[1..], row, unique, i - 1);
      assert Overwrite(rows, row, unique)[i] == rest[i - 1] && rows[1..][i - 1] == rows[i];
      if rest[i - 1] != rows[i] {
        forall j | 0 <= j < i ensures KeyOf(rows[j], unique) != KeyOf(rows[i], unique) {
          if j > 0 { assert rows[1..][j - 1] == rows[j]; }
        }
      }
    }
  }

  lemma {:induction false} UpsertKeepsPlaces(rows: seq<Row>, offered: seq<Row>, unique: seq<string>)
    requires AllCarry(offered, unique)
    requires forall i :: 0 <= i < |offered| ==> Find(rows, unique, KeyOf(offered[i], unique)).Some?
    ensures SamePlaces(rows, Upsert(rows, offered, unique).rows, unique)
  {
    hide KeyOf, Find, Overwrite;
    if offered != [] {
      var n := |offered| - 1;
      var w := Upsert(rows, offered[..n], unique);
      assert forall i :: 0 <= i < n ==> offered[..n][i] == offered[i];
      UpsertKeepsPlaces(rows, offered[..n], unique);
      UpsertHolds(rows, offered[..n], unique, KeyOf(offered[n], unique));
      forall i | 0 <= i < |w.rows| ensures
          var next := Overwrite(w.rows, offered[n], unique);
          && |next| == |w.rows| && KeyOf(next[i], unique) == KeyOf(w.rows[i], unique)
          && (next[i] == w.rows[i] || (FirstOf(w.rows, unique, i) && Carries(w.rows[i], unique))) {
        OverwriteChangesFirst(w.rows, offered[n], unique, i);
      }
    }
  }

  /** Replacing with the same rows a second time changes nothing, repeated keys or not. */
  lemma ReplaceAgain(rows: seq<Row>, offered: seq<Row>, unique: seq<string>)
    requires AllCarry(offered, unique)
    ensures var after := Upsert(rows, offered, unique).rows; Upsert(after, offered, unique).rows == after
  {
    hide KeyOf, Find, Upsert, LastWith;
    var after := Upsert(rows, offered, unique).rows;
    var again := Upsert(after, offered, unique).rows;
    forall i | 0 <= i < |offered| ensures Find(after, unique, KeyOf(offered[i], unique)).Some? {
      UpsertHolds(rows, offered, unique, KeyOf(offered[i], unique));
      LastIsAfter(offered, unique, i);
    }
    UpsertKeepsPlaces(after, offered, unique);
    forall i | 0 <= i < |after| ensures again[i] == after[i] {
      if again[i] != after[i] {
        var key := KeyOf(after[i], unique);
        FirstIsFound(after, unique, i);
        FirstIsFound(again, unique, i);
        UpsertHolds(rows, offered, unique, key);
        UpsertHolds(after, offered, unique, key);
      }
    }
  }

  lemma {:induction false} UpsertReturnsAll(rows: seq<Row>, offered: seq<Row>, unique: seq<string>)
    ensures |Upsert(rows, offered, unique).returned| == |offered|
  {
    if offered != [] { UpsertReturnsAll(rows, offered[..|offered| - 1], unique); }
  }

  lemma {:induction false} UpsertGrows(rows: seq<Row>, offered: seq<Row>, unique: seq<string>)
    ensures |Upsert(rows, offered, unique).rows| >= |rows|
    ensures !AllCarry(offered, unique) ==> |Upsert(rows, offered, unique).rows| > |rows|
  {
    hide KeyOf;
    if offered != [] {
      var n := |offered| - 1;
      var w := Upsert(rows, offered[..n], unique);
      UpsertGrows(rows, offered[..n], unique);
      assert forall i :: 0 <= i < n ==> offered[..n][i] == offered[i];
      OverwriteLength(w.rows, offered[n], unique);
    }
  }

  /** Replacing with the same rows again leaves the table as it was exactly when each of them carries its key. */
  lemma SameReplacedAgain(rows: seq<Row>, offered: seq<Row>, unique: seq<string>)
    ensures var after := Upsert(rows, offered, unique).rows;
      Upsert(after, offered, unique).rows == after <==> AllCarry(offered, unique)
  {
    if AllCarry(offered, unique) {
      ReplaceAgain(rows, offered, unique);
    } else {
      UpsertGrows(Upsert(rows, offered, unique).rows, offered, unique);
    }
  }
}
