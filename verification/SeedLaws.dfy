/** What a seed run does entry by entry, told without the functions that compute it. */
module SeedLaws {
  import opened Base
  import opened SeedTable
  import opened Seed

  // ---------------------------------------------------------------------------
  // Dry runs
  // ---------------------------------------------------------------------------

  ghost predicate AllEmpty(seeded: Seeded) { forall t :: t in seeded ==> seeded[t] == [] }

  /** What a dry run has done so far. */
  ghost predicate Dry(p: Progress, tables: Tables, offered: nat) {
    p.tables == tables && p.inserted == 0 && !p.aborted && p.skipped == offered && AllEmpty(p.seeded)
  }

  lemma DryTurn(p: Progress, named: Named, o: Options, cached: Seeded, nonce: int, tables: Tables, offered: nat)
    requires o.dryRun && Dry(p, tables, offered)
    ensures var a, rows := Attempt(p, named, o, cached, nonce), Rows(named, cached, p.seeded, nonce);
      Dry(Turn(p, named, o, cached, nonce), tables,
          if p.thrown.Some? || a.Failure? then offered else offered + |rows.value|)
  {
    hide Store, QueryBack;
  }

  lemma {:induction false} DryExecute(tables: Tables, def: seq<Named>, o: Options, cached: Seeded, nonce: int)
    requires o.dryRun
    ensures Dry(Execute(tables, def, o, cached, nonce), tables, OfferedRows(tables, def, o, cached, nonce))
  {
    hide Turn, Attempt, Dry, Rows;
    if def == [] {
      assert Dry(Begin(tables), tables, 0) by { DryBegin(tables); }
    } else {
      var n := |def| - 1;
      DryExecute(tables, def[..n], o, cached, nonce);
      DryTurn(Execute(tables, def[..n], o, cached, nonce), def[n], o, cached, nonce, tables,
              OfferedRows(tables, def[..n], o, cached, nonce));
    }
  }

  lemma DryBegin(tables: Tables)
    ensures Dry(Begin(tables), tables, 0)
  {}

  /** The rows resolved up front in a transaction; none outside. */
  function CachedFor(tables: Tables, def: seq<Named>, o: Options, nonce: int): Seeded {
    if o.transaction && Preview(tables, def, nonce).Success? then Preview(tables, def, nonce).value else map[]
  }

  /**
    A dry run, whatever its definition, strategies and transaction flag, writes nothing, reports
    nothing inserted, and reports as skipped all rows offered by the entries that did not fail.
   */
  lemma DryRunWritesNothing(tables: Tables, def: seq<Named>, o: Options, nonce: int)
    requires o.dryRun
    ensures var (report, after) := Outcome(tables, def, o, nonce);
      && after == tables
      && (report.Success? ==>
            && report.value.inserted == 0
            && report.value.skipped == OfferedRows(tables, def, o, CachedFor(tables, def, o, nonce), nonce))
  {
    hide Execute, Preview, OfferedRows;
    DryExecute(tables, def, o, CachedFor(tables, def, o, nonce), nonce);
  }

  // ---------------------------------------------------------------------------
  // When an entry fails
  // ---------------------------------------------------------------------------

  /** A plain insert meets a key that is taken, in the table or by an earlier row. */
  ghost predicate MeetsKey(rows: seq<Row>, offered: seq<Row>, unique: seq<string>) {
    exists i :: 0 <= i < |offered| && Carries(offered[i], unique) && Taken(rows, offered, unique, i)
  }

  ghost predicate Taken(rows: seq<Row>, offered: seq<Row>, unique: seq<string>, i: nat)
    requires i < |offered|
  {
    || (exists r :: r in rows && KeyOf(r, unique) == KeyOf(offered[i], unique))
    || (exists j :: 0 <= j < i && KeyOf(offered[j], unique) == KeyOf(offered[i], unique))
  }

  lemma {:induction false} FindIsTaken(rows: seq<Row>, unique: seq<string>, key: Key)
    ensures Find(rows, unique, key).Some? <==> None !in key && exists r :: r in rows && KeyOf(r, unique) == key
  {
    hide KeyOf;
    if rows != [] {
      FindIsTaken(rows[1..], unique, key);
      if r :| r in rows && KeyOf(r, unique) == key { assert r == rows[0] || r in rows[1..]; }
    }
  }

  /** The last row is taken by the rows and the other rows offered. */
  lemma LastIsTaken(rows: seq<Row>, offered: seq<Row>, unique: seq<string>)
    requires offered != []
    ensures var n := |offered| - 1; var key := KeyOf(offered[n], unique);
      Find(rows + offered[..n], unique, key).Some? <==> Carries(offered[n], unique) && Taken(rows, offered, unique, n)
  {
    hide KeyOf;
    var n := |offered| - 1;
    var key, all := KeyOf(offered[n], unique), rows + offered[..n];
    FindIsTaken(all, unique, key);
    if r :| r in all && KeyOf(r, unique) == key {
      if r !in rows {
        assert r in offered[..n];
        var j :| 0 <= j < n && offered[..n][j] == r;
        assert KeyOf(offered[j], unique) == key;
      }
    }
    if j :| 0 <= j < n && KeyOf(offered[j], unique) == key { assert offered[..n][j] in all; }
  }

  lemma FrontMeets(rows: seq<Row>, offered: seq<Row>, unique: seq<string>)
    requires offered != []
    ensures var n := |offered| - 1;
      MeetsKey(rows, offered, unique) <==>
        (MeetsKey(rows, offered[..n], unique) || (Carries(offered[n], unique) && Taken(rows, offered, unique, n)))
  {
    hide KeyOf, Carries;
    var n := |offered| - 1;
    forall i | 0 <= i < n ensures Taken(rows, offered[..n], unique, i) <==> Taken(rows, offered, unique, i) {
      assert offered[..n][i] == offered[i];
      if j :| 0 <= j < i && KeyOf(offered[j], unique) == KeyOf(offered[i], unique) {
        assert offered[..n][j] == offered[j];
      }
    }
  }

  /** A plain insert fails exactly when it meets a key, and otherwise adds all the rows. */
  lemma {:induction false} PlainInsert(rows: seq<Row>, offered: seq<Row>, unique: seq<string>)
    ensures var w := InsertSkip(rows, offered, unique);
      if MeetsKey(rows, offered, unique) then |w.returned| < |offered| else w == Written(rows + offered, offered)
  {
    hide KeyOf, Carries, Taken, MeetsKey, Find;
    if offered == [] {
      NothingMeets(rows, unique);
      assert rows + offered == rows;
    } else {
      var n := |offered| - 1;
      PlainInsert(rows, offered[..n], unique);
      FrontMeets(rows, offered, unique);
      LastIsTaken(rows, offered, unique);
      assert rows + offered == rows + offered[..n] + [offered[n]];
    }
  }

  lemma NothingMeets(rows: seq<Row>, unique: seq<string>)
    ensures !MeetsKey(rows, [], unique)
  {}

  /** The database refuses the rows: by their target, by a conflict, or because it refuses everything by now. */
  ghost predicate Refuses(p: Progress, named: Named, rows: seq<Row>, o: Options)
    requires named.table in p.tables
  {
    var t, own := p.tables[named.table], named.entry.onConflict;
    var strategy := if own.Some? then own.value else o.onConflict;
    || p.aborted
    || (named.entry.unique.Some? && named.entry.unique.value != t.unique)
    || (strategy == Fail && MeetsKey(t.rows, rows, t.unique))
    || (strategy == Replace && t.dialect == Postgres && RepeatsKey(rows, t.unique))
  }

  ghost predicate Resolves(named: Named, cached: Seeded, seeded: Seeded, nonce: int, rows: seq<Row>) {
    if named.table in cached then rows == cached[named.table]
    else match named.entry.source
      case Given(given) => rows == given
      case Resolver(resolve) => resolve(seeded, nonce) == Some(rows)
  }

  ghost predicate Passes(named: Named, rows: seq<Row>) {
    named.entry.schema.Some? ==> forall row :: row in rows ==> named.entry.schema.value(row)
  }

  /**
    An entry succeeds exactly when its table is known, its rows can be resolved, and there are none,
    or all pass the schema and, but for a dry run, the database takes them.
   */
  lemma EntrySucceeds(p: Progress, named: Named, o: Options, cached: Seeded, nonce: int)
    ensures Attempt(p, named, o, cached, nonce).Success? <==>
      named.table in p.tables && exists rows ::
        && Resolves(named, cached, p.seeded, nonce, rows)
        && (rows == [] || (Passes(named, rows) && (o.dryRun || !Refuses(p, named, rows, o))))
  {
    hide InsertSkip, Upsert, MeetsKey, RepeatsKey, QueryBack;
    if named.table in p.tables {
      var r := Rows(named, cached, p.seeded, nonce);
      if r.Success? {
        var t := p.tables[named.table];
        assert Resolves(named, cached, p.seeded, nonce, r.value);
        PassesIsValid(named, r.value);
        PlainInsert(t.rows, r.value, t.unique);
      }
    }
  }

  lemma PassesIsValid(named: Named, rows: seq<Row>)
    ensures Passes(named, rows) <==> Valid(named.entry, rows)
  {
    if Valid(named.entry, rows) && named.entry.schema.Some? {
      forall row | row in rows ensures named.entry.schema.value(row) {
        var i :| 0 <= i < |rows| && rows[i] == row;
      }
    }
  }

  // ---------------------------------------------------------------------------
  // What a strategy leaves
  // ---------------------------------------------------------------------------

  /** Of several rows offered for a free key, the first is inserted. */
  lemma {:induction false} SkipTakesFirst(rows: seq<Row>, offered: seq<Row>, unique: seq<string>, i: nat)
    requires i < |offered| && Carries(offered[i], unique) && !Taken(rows, offered, unique, i)
    ensures Find(InsertSkip(rows, offered, unique).rows, unique, KeyOf(offered[i], unique)) == Some(offered[i])
    decreases |offered|
  {
    hide KeyOf;
    var n := |offered| - 1;
    var w, key := InsertSkip(rows, offered[..n], unique), KeyOf(offered[i], unique);
    FindConcat(w.rows, [offered[n]], unique, key);
    FindOne(offered[n], unique, key);
    if i < n {
      assert forall j :: 0 <= j < n ==> offered[..n][j] == offered[j];
      SkipTakesFirst(rows, offered[..n], unique, i);
    } else {
      NothingNewHasKey(rows, offered[..n], unique, key);
      FindIsTaken(rows, unique, key);
    }
  }

  lemma {:induction false} NothingNewHasKey(rows: seq<Row>, offered: seq<Row>, unique: seq<string>, key: Key)
    requires forall j :: 0 <= j < |offered| ==> KeyOf(offered[j], unique) != key
    ensures Find(InsertSkip(rows, offered, unique).rows, unique, key) == Find(rows, unique, key)
  {
    hide KeyOf;
    if offered != [] {
      var n := |offered| - 1;
      assert forall j :: 0 <= j < n ==> offered[..n][j] == offered[j];
      NothingNewHasKey(rows, offered[..n], unique, key);
      FindConcat(InsertSkip(rows, offered[..n], unique).rows, [offered[n]], unique, key);
      FindOne(offered[n], unique, key);
    }
  }

  /** Rows that were there stay first; a key that was free goes to the first row offered for it. */
  ghost predicate Skipped(was: seq<Row>, now: seq<Row>, rows: seq<Row>, unique: seq<string>) {
    && was <= now
    && forall i :: 0 <= i < |rows| && Carries(rows[i], unique) && !Taken(was, rows, unique, i) ==>
      Find(now, unique, KeyOf(rows[i], unique)) == Some(rows[i])
  }

  /** Every key offered holds the last row offered for it, every other key what it held. */
  ghost predicate Replaced(was: seq<Row>, now: seq<Row>, rows: seq<Row>, unique: seq<string>) {
    AllCarry(rows, unique) ==> forall key ::
      if exists i :: 0 <= i < |rows| && KeyOf(rows[i], unique) == key then
        exists i :: 0 <= i < |rows| && Find(now, unique, key) == Some(rows[i]) && LastOf(rows, unique, i, key)
      else Find(now, unique, key) == Find(was, unique, key)
  }

  ghost predicate LastOf(rows: seq<Row>, unique: seq<string>, i: nat, key: Key)
    requires i < |rows|
  {
    KeyOf(rows[i], unique) == key && forall j :: i < j < |rows| ==> KeyOf(rows[j], unique) != key
  }

  lemma {:induction false} LastWithIsLast(rows: seq<Row>, unique: seq<string>, key: Key)
    ensures if exists i :: 0 <= i < |rows| && KeyOf(rows[i], unique) == key
      then exists i :: 0 <= i < |rows| && LastWith(rows, unique, key) == Some(rows[i]) && LastOf(rows, unique, i, key)
      else LastWith(rows, unique, key) == None
  {
    hide KeyOf;
    if rows != [] {
      var n := |rows| - 1;
      if KeyOf(rows[n], unique) == key {
        assert LastOf(rows, unique, n, key);
      } else {
        LastWithIsLast(rows[..n], unique, key);
        assert forall i :: 0 <= i < n ==> rows[..n][i] == rows[i];
        if i :| 0 <= i < |rows| && KeyOf(rows[i], unique) == key {
          assert i < n && KeyOf(rows[..n][i], unique) == key;
          var k :| 0 <= k < n && LastWith(rows[..n], unique, key) == Some(rows[..n][k])
            && LastOf(rows[..n], unique, k, key);
          assert LastOf(rows, unique, k, key);
        }
      }
    }
  }

  lemma SkipLeaves(was: seq<Row>, rows: seq<Row>, unique: seq<string>)
    ensures Skipped(was, InsertSkip(was, rows, unique).rows, rows, unique)
  {
    hide KeyOf, Carries, Taken, Find;
    forall i | 0 <= i < |rows| && Carries(rows[i], unique) && !Taken(was, rows, unique, i)
      ensures Find(InsertSkip(was, rows, unique).rows, unique, KeyOf(rows[i], unique)) == Some(rows[i])
    {
      SkipTakesFirst(was, rows, unique, i);
    }
  }

  lemma ReplaceLeaves(was: seq<Row>, rows: seq<Row>, unique: seq<string>)
    ensures Replaced(was, Upsert(was, rows, unique).rows, rows, unique)
  {
    hide KeyOf, LastOf, Find, LastWith, Upsert;
    if AllCarry(rows, unique) {
      forall key ensures
          if exists i :: 0 <= i < |rows| && KeyOf(rows[i], unique) == key then
            exists i :: 0 <= i < |rows| && LastWith(rows, unique, key) == Some(rows[i]) && LastOf(rows, unique, i, key)
          else LastWith(rows, unique, key) == None
      {
        LastWithIsLast(rows, unique, key);
      }
      forall key ensures Find(Upsert(was, rows, unique).rows, unique, key)
          == if LastWith(rows, unique, key).Some? then LastWith(rows, unique, key) else Find(was, unique, key)
      {
        UpsertHolds(was, rows, unique, key);
      }
    }
  }

  /** What a written entry leaves in its table is decided by its own strategy, and without one by the run's. */
  lemma OwnStrategyDecides(p: Progress, named: Named, o: Options, cached: Seeded, nonce: int, rows: seq<Row>)
    requires Attempt(p, named, o, cached, nonce).Success? && !o.dryRun
    requires Resolves(named, cached, p.seeded, nonce, rows)
    ensures var was, now := p.tables[named.table], Attempt(p, named, o, cached, nonce).value.tables[named.table];
      var strategy := if named.entry.onConflict.Some? then named.entry.onConflict.value else o.onConflict;
      && now == was.(rows := now.rows)
      && (strategy == Fail ==> now.rows == was.rows + rows)
      && (strategy == Skip ==> Skipped(was.rows, now.rows, rows, was.unique))
      && (strategy == Replace ==> Replaced(was.rows, now.rows, rows, was.unique))
  {
    hide InsertSkip, Upsert, QueryBack, Skipped, Replaced, MeetsKey;
    var was := p.tables[named.table];
    PlainInsert(was.rows, rows, was.unique);
    SkipLeaves(was.rows, rows, was.unique);
    ReplaceLeaves(was.rows, rows, was.unique);
    NothingOffered(was.rows, was.unique);
    if rows == [] { assert was.rows + rows == was.rows; }
  }

  lemma NothingOffered(rows: seq<Row>, unique: seq<string>)
    ensures InsertSkip(rows, [], unique).rows == rows && Upsert(rows, [], unique) == Written(rows, [])
  {}

  /** What resolvers are shown of rows without keys, which no query finds again: the rows inserted. */
  lemma KeylessRowsAreShown(p: Progress, named: Named, o: Options, cached: Seeded, nonce: int, rows: seq<Row>)
    requires Attempt(p, named, o, cached, nonce).Success? && !o.dryRun
    requires Resolves(named, cached, p.seeded, nonce, rows)
    requires forall row :: row in rows ==> !Carries(row, p.tables[named.table].unique)
    ensures Attempt(p, named, o, cached, nonce).value.seeded == p.seeded[named.table := rows]
  {
    hide InsertSkip, Upsert, QueryBack, MeetsKey, KeyOf;
    var t := p.tables[named.table];
    forall i | 0 <= i < |rows| ensures !Carries(rows[i], t.unique) { assert rows[i] in rows; }
    PlainInsert(t.rows, rows, t.unique);
    KeylessUpsert(t.rows, rows, t.unique);
    KeylessUntaken(t.rows, rows, t.unique);
    forall all ensures QueryBack(all, rows, t.unique) == [] { KeylessIsNotFound(all, rows, t.unique); }
  }

  lemma KeylessUntaken(rows: seq<Row>, offered: seq<Row>, unique: seq<string>)
    requires forall i :: 0 <= i < |offered| ==> !Carries(offered[i], unique)
    ensures !MeetsKey(rows, offered, unique)
  {}

  lemma KeylessNotFound(rows: seq<Row>, row: Row, unique: seq<string>)
    requires !Carries(row, unique)
    ensures Find(rows, unique, KeyOf(row, unique)).None?
  {}

  lemma UpsertOne(rows: seq<Row>, offered: seq<Row>, unique: seq<string>)
    requires offered != []
    ensures var n := |offered| - 1; var w := Upsert(rows, offered[..n], unique);
      Find(w.rows, unique, KeyOf(offered[n], unique)).None? ==>
        Upsert(rows, offered, unique) == Written(w.rows + [offered[n]], w.returned + [offered[n]])
  {
    hide KeyOf, Find, Overwrite;
  }

  lemma {:induction false} KeylessUpsert(rows: seq<Row>, offered: seq<Row>, unique: seq<string>)
    requires forall i :: 0 <= i < |offered| ==> !Carries(offered[i], unique)
    ensures Upsert(rows, offered, unique) == Written(rows + offered, offered)
  {
    hide KeyOf, Carries, Find, Upsert;
    if offered == [] {
      NothingOffered(rows, unique);
      assert rows + offered == rows && offered == [];
    } else {
      var n := |offered| - 1;
      assert forall i :: 0 <= i < n ==> offered[..n][i] == offered[i];
      KeylessUpsert(rows, offered[..n], unique);
      KeylessNotFound(rows + offered[..n], offered[n], unique);
      UpsertOne(rows, offered, unique);
      assert rows + offered == rows + offered[..n] + [offered[n]];
    }
  }

  lemma {:induction false} KeylessIsNotFound(rows: seq<Row>, offered: seq<Row>, unique: seq<string>)
    requires forall i :: 0 <= i < |offered| ==> !Carries(offered[i], unique)
    ensures QueryBack(rows, offered, unique) == []
  {
    hide KeyOf, Carries, Find;
    if offered != [] {
      var n := |offered| - 1;
      assert forall i :: 0 <= i < n ==> offered[..n][i] == offered[i];
      KeylessIsNotFound(rows, offered[..n], unique);
      KeylessNotFound(rows, offered[n], unique);
    }
  }

  // ---------------------------------------------------------------------------
  // Failing fast
  // ---------------------------------------------------------------------------

  /** The run up to entry `i`, and what becomes of that entry. */
  function Until(tables: Tables, def: seq<Named>, i: nat, o: Options, cached: Seeded, nonce: int): Progress
    requires i <= |def|
  {
    Execute(tables, def[..i], o, cached, nonce)
  }

  function EntryAt(tables: Tables, def: seq<Named>, i: nat, o: Options, cached: Seeded, nonce: int):
      Result<Progress, Error>
    requires i < |def|
  {
    Attempt(Until(tables, def, i, o, cached, nonce), def[i], o, cached, nonce)
  }

  lemma UntilNext(tables: Tables, def: seq<Named>, i: nat, o: Options, cached: Seeded, nonce: int)
    requires i < |def|
    ensures Until(tables, def, i + 1, o, cached, nonce)
      == Turn(Until(tables, def, i, o, cached, nonce), def[i], o, cached, nonce)
    ensures Until(tables, def, 0, o, cached, nonce) == Begin(tables)
  {
    hide Turn;
    assert def[..i + 1][..i] == def[..i];
  }

  ghost predicate FailsFirst(tables: Tables, def: seq<Named>, i: nat, o: Options, cached: Seeded, nonce: int)
    requires i < |def|
  {
    && EntryAt(tables, def, i, o, cached, nonce).Failure?
    && forall j :: 0 <= j < i ==> EntryAt(tables, def, j, o, cached, nonce).Success?
  }

  /**
    With failFast the run ends at the first entry that fails, with its error and with what the
    entries before it wrote; it throws exactly when an entry fails, and without failFast never.
   */
  lemma {:induction false} FailFast(tables: Tables, def: seq<Named>, i: nat, o: Options, cached: Seeded, nonce: int)
    requires i <= |def|
    ensures var p := Until(tables, def, i, o, cached, nonce);
      && (p.thrown.Some? <==> o.failFast && p.failed > 0)
      && (p.failed == 0 <==> forall j :: 0 <= j < i ==> EntryAt(tables, def, j, o, cached, nonce).Success?)
      && (p.thrown.Some? ==> exists j ::
        && 0 <= j < i && FailsFirst(tables, def, j, o, cached, nonce)
        && p.thrown.value == EntryAt(tables, def, j, o, cached, nonce).error
        && p.tables == Until(tables, def, j, o, cached, nonce).tables)
  {
    hide Until, Attempt, FailsFirst;
    UntilStart(tables, def, o, cached, nonce);
    if i > 0 {
      var n := i - 1;
      FailFast(tables, def, n, o, cached, nonce);
      UntilNext(tables, def, n, o, cached, nonce);
      var p := Until(tables, def, n, o, cached, nonce);
      if EntryAt(tables, def, n, o, cached, nonce).Success? { SuccessKeeps(p, def[n], o, cached, nonce); }
      if p.thrown.None? && EntryAt(tables, def, n, o, cached, nonce).Failure? && o.failFast {
        assert FailsFirst(tables, def, n, o, cached, nonce) by {
          IsFirst(tables, def, n, o, cached, nonce);
        }
      }
    }
  }

  lemma UntilStart(tables: Tables, def: seq<Named>, o: Options, cached: Seeded, nonce: int)
    ensures Until(tables, def, 0, o, cached, nonce) == Begin(tables)
  {}

  lemma IsFirst(tables: Tables, def: seq<Named>, i: nat, o: Options, cached: Seeded, nonce: int)
    requires i < |def| && EntryAt(tables, def, i, o, cached, nonce).Failure?
    requires forall j :: 0 <= j < i ==> EntryAt(tables, def, j, o, cached, nonce).Success?
    ensures FailsFirst(tables, def, i, o, cached, nonce)
  {}

  lemma SuccessKeeps(p: Progress, named: Named, o: Options, cached: Seeded, nonce: int)
    requires Attempt(p, named, o, cached, nonce).Success?
    ensures var q := Attempt(p, named, o, cached, nonce).value; q.failed == p.failed && q.thrown == p.thrown
  {
    hide Store, QueryBack;
  }

  // ---------------------------------------------------------------------------
  // The report
  // ---------------------------------------------------------------------------

  function Lines(items: seq<Item>, operation: Operation): nat {
    if items == [] then 0
    else Lines(items[..|items| - 1], operation) + if items[|items| - 1].operation == operation then 1 else 0
  }

  function Counted(items: seq<Item>): nat {
    if items == [] then 0
    else
      var last := items[|items| - 1];
      Counted(items[..|items| - 1]) + if last.operation in {Inserting, Updating} then last.count else 0
  }

  /** The line of an entry: what was done, and for how many rows. */
  ghost predicate LineFor(line: Item, p: Progress, named: Named, o: Options, cached: Seeded, nonce: int) {
    var a := Attempt(p, named, o, cached, nonce);
    var own := named.entry.onConflict;
    var strategy := if own.Some? then own.value else o.onConflict;
    && line.table == named.table
    && if a.Failure? then line.operation == Failing && line.count == 0
       else exists rows ::
         && Resolves(named, cached, p.seeded, nonce, rows)
         && (if rows == [] || o.dryRun then line.operation == Skipping && line.count == |rows|
             else
               && line.operation == (if strategy == Replace then Updating else Inserting)
               && line.count == a.value.inserted - p.inserted)
  }

  lemma TurnAddsLine(p: Progress, named: Named, o: Options, cached: Seeded, nonce: int)
    requires p.thrown.None?
    ensures var q := Turn(p, named, o, cached, nonce);
      && |q.items| == |p.items| + 1 && q.items[..|p.items|] == p.items
      && LineFor(q.items[|p.items|], p, named, o, cached, nonce)
      && q.failed - p.failed == (if q.items[|p.items|].operation == Failing then 1 else 0)
      && q.inserted - p.inserted
        == if q.items[|p.items|].operation in {Inserting, Updating} then q.items[|p.items|].count else 0
  {
    hide Store, QueryBack, Valid;
    var r := Rows(named, cached, p.seeded, nonce);
    if named.table in p.tables && r.Success? { assert Resolves(named, cached, p.seeded, nonce, r.value); }
  }

  /** One line for each entry, in order; the totals of the report are the sums of its lines. */
  lemma {:induction false} ReportLines(
      tables: Tables, def: seq<Named>, i: nat, o: Options, cached: Seeded, nonce: int)
    requires i <= |def| && Until(tables, def, i, o, cached, nonce).thrown.None?
    ensures var p := Until(tables, def, i, o, cached, nonce);
      && |p.items| == i && p.failed == Lines(p.items, Failing) && p.inserted == Counted(p.items)
      && forall j :: 0 <= j < i ==>
        LineFor(p.items[j], Until(tables, def, j, o, cached, nonce), def[j], o, cached, nonce)
  {
    hide Until, Turn, LineFor;
    UntilStart(tables, def, o, cached, nonce);
    if i > 0 {
      var n := i - 1;
      UntilNext(tables, def, n, o, cached, nonce);
      var p := Until(tables, def, n, o, cached, nonce);
      assert p.thrown.None? by { ThrownIsFinal(p, def[n], o, cached, nonce); }
      ReportLines(tables, def, n, o, cached, nonce);
      TurnAddsLine(p, def[n], o, cached, nonce);
      var q := Until(tables, def, i, o, cached, nonce);
      assert q.items[..n] == p.items;
      forall j | 0 <= j < i
        ensures LineFor(q.items[j], Until(tables, def, j, o, cached, nonce), def[j], o, cached, nonce)
      {
        if j < n { assert q.items[j] == p.items[j]; }
      }
    }
  }

  lemma ThrownIsFinal(p: Progress, named: Named, o: Options, cached: Seeded, nonce: int)
    ensures p.thrown.Some? ==> Turn(p, named, o, cached, nonce) == p
  {}

  // ---------------------------------------------------------------------------
  // Transactions
  // ---------------------------------------------------------------------------

  /** Before the transaction entry `i` resolves to rows that pass, given those of the entries before it. */
  ghost predicate ResolvesUpFront(tables: Tables, def: seq<Named>, i: nat, nonce: int, rows: seq<Row>)
    requires i < |def|
  {
    var before := Preview(tables, def[..i], nonce);
    && before.Success? && def[i].table in tables
    && Resolves(def[i], map[], before.value, nonce, rows) && Passes(def[i], rows)
  }

  ghost predicate UpFrontAt(tables: Tables, def: seq<Named>, i: nat, nonce: int)
    requires i < |def|
  {
    exists rows :: ResolvesUpFront(tables, def, i, nonce, rows)
  }

  lemma OnePreview(tables: Tables, def: seq<Named>, nonce: int)
    requires def != []
    ensures var n := |def| - 1; var r := Preview(tables, def, nonce);
      && (r.Success? <==> exists rows :: ResolvesUpFront(tables, def, n, nonce, rows))
      && forall rows :: ResolvesUpFront(tables, def, n, nonce, rows) ==>
        r == Success(Preview(tables, def[..n], nonce).value[def[n].table := rows])
  {
    hide Valid;
    var n := |def| - 1;
    var before := Preview(tables, def[..n], nonce);
    if before.Success? {
      var r := Offered(def[n].entry, before.value, nonce);
      if r.Success? {
        PassesIsValid(def[n], r.value);
        if def[n].table in tables && Passes(def[n], r.value) {
          assert ResolvesUpFront(tables, def, n, nonce, r.value);
        }
      }
      forall rows | ResolvesUpFront(tables, def, n, nonce, rows) ensures r == Success(rows) {}
      if rows :| ResolvesUpFront(tables, def, n, nonce, rows) { PassesIsValid(def[n], rows); }
    }
  }

  /** Every entry resolves up front exactly when the whole definition does. */
  lemma {:induction false} AllUpFront(tables: Tables, def: seq<Named>, nonce: int)
    ensures Preview(tables, def, nonce).Success? <==> forall i :: 0 <= i < |def| ==> UpFrontAt(tables, def, i, nonce)
  {
    hide ResolvesUpFront, Preview;
    if def == [] {
      NoPreview(tables, nonce);
    } else {
      var n := |def| - 1;
      AllUpFront(tables, def[..n], nonce);
      OnePreview(tables, def, nonce);
      forall i | 0 <= i < n ensures UpFrontAt(tables, def, i, nonce) <==> UpFrontAt(tables, def[..n], i, nonce) {
        forall rows
          ensures ResolvesUpFront(tables, def, i, nonce, rows) <==> ResolvesUpFront(tables, def[..n], i, nonce, rows)
        {
          UpFrontInFront(tables, def, i, nonce, rows);
        }
      }
      if UpFrontAt(tables, def, n, nonce) {
        var rows :| ResolvesUpFront(tables, def, n, nonce, rows);
        UpFrontBefore(tables, def, nonce, rows);
      }
    }
  }

  /**
    A transaction is entered only when every entry's table is known and its rows resolve and pass
    the schema; otherwise the run fails and leaves everything as it was.
   */
  lemma EnteredOrNothing(tables: Tables, def: seq<Named>, o: Options, nonce: int, i: nat)
    requires o.transaction && i < |def| && !UpFrontAt(tables, def, i, nonce)
    ensures Outcome(tables, def, o, nonce).0.Failure? && Outcome(tables, def, o, nonce).1 == tables
  {
    hide UpFrontAt, Preview, Execute;
    AllUpFront(tables, def, nonce);
  }

  lemma NoPreview(tables: Tables, nonce: int)
    ensures Preview(tables, [], nonce) == Success(map[])
  {}

  lemma UpFrontInFront(tables: Tables, def: seq<Named>, i: nat, nonce: int, rows: seq<Row>)
    requires i < |def| - 1
    ensures ResolvesUpFront(tables, def, i, nonce, rows)
      <==> ResolvesUpFront(tables, def[..|def| - 1], i, nonce, rows)
  {
    hide Preview, Resolves, Passes;
    assert def[..|def| - 1][..i] == def[..i];
  }

  lemma UpFrontBefore(tables: Tables, def: seq<Named>, nonce: int, rows: seq<Row>)
    requires def != [] && ResolvesUpFront(tables, def, |def| - 1, nonce, rows)
    ensures Preview(tables, def[..|def| - 1], nonce).Success?
  {}

  /** Inside the transaction every entry is given the rows it resolved to up front. */
  lemma {:induction false} RowsUpFront(tables: Tables, def: seq<Named>, i: nat, nonce: int, rows: seq<Row>)
    requires i < |def| && Distinct(def) && ResolvesUpFront(tables, def, i, nonce, rows)
    requires Preview(tables, def, nonce).Success?
    ensures var cached := Preview(tables, def, nonce).value;
      def[i].table in cached && cached[def[i].table] == rows
    decreases |def|
  {
    hide ResolvesUpFront, Preview;
    var n := |def| - 1;
    OnePreview(tables, def, nonce);
    var last :| ResolvesUpFront(tables, def, n, nonce, last);
    UpFrontBefore(tables, def, nonce, last);
    if i < n {
      UpFrontInFront(tables, def, i, nonce, rows);
      assert forall j :: 0 <= j < n ==> def[..n][j] == def[j];
      RowsUpFront(tables, def[..n], i, nonce, rows);
      assert def[i].table != def[n].table;
    }
  }

  /** The run gets to entry `i`, and PostgreSQL refuses its rows. */
  ghost predicate PostgresRefuses(tables: Tables, def: seq<Named>, i: nat, o: Options, cached: Seeded, nonce: int)
    requires i < |def|
  {
    var p := Until(tables, def, i, o, cached, nonce);
    && p.thrown.None? && def[i].table in p.tables && p.tables[def[i].table].dialect == Postgres && !o.dryRun
    && exists rows ::
      && Resolves(def[i], cached, p.seeded, nonce, rows)
      && rows != [] && Passes(def[i], rows) && Refuses(p, def[i], rows, o)
  }

  lemma TurnAborts(p: Progress, named: Named, o: Options, cached: Seeded, nonce: int)
    ensures var q := Turn(p, named, o, cached, nonce);
      q.aborted <==>
        || p.aborted
        || (&& o.transaction && !o.dryRun && p.thrown.None?
            && named.table in p.tables && p.tables[named.table].dialect == Postgres
            && exists rows ::
              && Resolves(named, cached, p.seeded, nonce, rows)
              && rows != [] && Passes(named, rows) && Refuses(p, named, rows, o))
  {
    hide InsertSkip, Upsert, MeetsKey, RepeatsKey, QueryBack;
    if named.table in p.tables {
      var r := Rows(named, cached, p.seeded, nonce);
      if r.Success? {
        var t := p.tables[named.table];
        assert Resolves(named, cached, p.seeded, nonce, r.value);
        PassesIsValid(named, r.value);
        PlainInsert(t.rows, r.value, t.unique);
      }
    }
  }

  lemma AnyBefore(tables: Tables, def: seq<Named>, i: nat, o: Options, cached: Seeded, nonce: int)
    requires 0 < i <= |def|
    ensures (exists j :: 0 <= j < i && PostgresRefuses(tables, def, j, o, cached, nonce))
      <==> (|| (exists j :: 0 <= j < i - 1 && PostgresRefuses(tables, def, j, o, cached, nonce))
            || PostgresRefuses(tables, def, i - 1, o, cached, nonce))
  {
    hide PostgresRefuses;
  }

  lemma {:induction false} AbortedByRefusal(
      tables: Tables, def: seq<Named>, i: nat, o: Options, cached: Seeded, nonce: int)
    requires i <= |def|
    ensures Until(tables, def, i, o, cached, nonce).aborted
      <==> o.transaction && exists j :: 0 <= j < i && PostgresRefuses(tables, def, j, o, cached, nonce)
  {
    hide Until, Turn, Refuses, Resolves, Passes;
    UntilStart(tables, def, o, cached, nonce);
    if i > 0 {
      var n := i - 1;
      var p, q := Until(tables, def, n, o, cached, nonce), Until(tables, def, i, o, cached, nonce);
      AbortedByRefusal(tables, def, n, o, cached, nonce);
      UntilNext(tables, def, n, o, cached, nonce);
      TurnAborts(p, def[n], o, cached, nonce);
      assert q.aborted <==> p.aborted || (o.transaction && PostgresRefuses(tables, def, n, o, cached, nonce));
      AnyBefore(tables, def, i, o, cached, nonce);
    }
  }

  /**
    A transaction that was entered leaves what its entries wrote, unless an error was thrown or
    PostgreSQL refused the rows of an entry: then nothing. Outside a transaction what was written stays.
   */
  lemma AllOrNothing(tables: Tables, def: seq<Named>, o: Options, nonce: int)
    requires o.transaction ==> Preview(tables, def, nonce).Success?
    ensures var (report, after) := Outcome(tables, def, o, nonce);
      var cached := CachedFor(tables, def, o, nonce);
      var refused := exists j :: 0 <= j < |def| && PostgresRefuses(tables, def, j, o, cached, nonce);
      && after == (if o.transaction && (report.Failure? || refused) then tables
                   else Execute(tables, def, o, cached, nonce).tables)
      && (report.Failure? <==> o.failFast && exists j ::
            0 <= j < |def| && EntryAt(tables, def, j, o, cached, nonce).Failure?)
  {
    hide Execute, Preview, PostgresRefuses, EntryAt, FailsFirst;
    var cached := CachedFor(tables, def, o, nonce);
    WholeRun(tables, def, o, cached, nonce);
    AbortedByRefusal(tables, def, |def|, o, cached, nonce);
    FailFast(tables, def, |def|, o, cached, nonce);
    var p := Execute(tables, def, o, cached, nonce);
    assert p.thrown.Some? <==>
      o.failFast && exists j :: 0 <= j < |def| && EntryAt(tables, def, j, o, cached, nonce).Failure?;
    assert Outcome(tables, def, o, nonce)
      == (ReportOf(p), if o.transaction && RolledBack(p) then tables else p.tables);
  }

  lemma WholeRun(tables: Tables, def: seq<Named>, o: Options, cached: Seeded, nonce: int)
    ensures Until(tables, def, |def|, o, cached, nonce) == Execute(tables, def, o, cached, nonce)
  {
    hide Execute;
    assert def[..|def|] == def;
  }
}
