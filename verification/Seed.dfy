/** Seeding on SQLite and PostgreSQL: the tables of a definition in order, each entry seeing the rows before it. */
module Seed {
  import opened Base
  import opened SeedTable

  type Tables = map<string, Table>

  /** What resolvers are given: for each table seeded so far, its rows. */
  type Seeded = map<string, seq<Row>>

  datatype Error = UnknownTable | ResolverThrew | InvalidRow | NoSuchKey | Conflict | Aborted

  /** A resolver may throw, and may depend on a nonce: time, randomness, anything that differs from run to run. */
  datatype Source = Given(rows: seq<Row>) | Resolver(resolve: (Seeded, int) -> Option<seq<Row>>)

  datatype Entry = Entry(source: Source, schema: Option<Row -> bool>, unique: Option<seq<string>>,
                         onConflict: Option<Strategy>)

  datatype Named = Named(table: string, entry: Entry)

  datatype Options = Options(onConflict: Strategy, transaction: bool, dryRun: bool, failFast: bool)

  datatype Operation = Inserting | Updating | Skipping | Failing

  datatype Item = Item(table: string, operation: Operation, count: nat)

  /** Once `aborted`, PostgreSQL refuses every further statement of the transaction and commits none of it. */
  datatype Progress = Progress(tables: Tables, seeded: Seeded, inserted: nat, skipped: nat, failed: nat,
                               items: seq<Item>, thrown: Option<Error>, aborted: bool)

  function Begin(tables: Tables): Progress { Progress(tables, map[], 0, 0, 0, [], None, false) }

  function Offered(entry: Entry, seeded: Seeded, nonce: int): (offered: Result<seq<Row>, Error>)
    ensures offered.Failure? ==> offered.error == ResolverThrew
  {
    match entry.source
    case Given(rows) => Success(rows)
    case Resolver(resolve) =>
      match resolve(seeded, nonce)
      case None => Failure(ResolverThrew)
      case Some(rows) => Success(rows)
  }

  /** What an entry offers in a run: the rows resolved up front, or its own. */
  function Rows(named: Named, cached: Seeded, seeded: Seeded, nonce: int): Result<seq<Row>, Error> {
    if named.table in cached then Success(cached[named.table]) else Offered(named.entry, seeded, nonce)
  }

  predicate Valid(entry: Entry, rows: seq<Row>) {
    entry.schema.Some? ==> forall i :: 0 <= i < |rows| ==> entry.schema.value(rows[i])
  }

  function StrategyOf(entry: Entry, o: Options): Strategy { entry.onConflict.UnwrapOr(o.onConflict) }

  predicate FromDatabase(error: Error) { error.NoSuchKey? || error.Conflict? || error.Aborted? }

  /** The statement that inserts, as the database answers it. */
  function Store(table: Table, rows: seq<Row>, target: seq<string>, strategy: Strategy, aborted: bool):
      (stored: Result<Written, Error>)
    ensures stored.Failure? ==> FromDatabase(stored.error)
  {
    if aborted then Failure(Aborted)
    else if target != table.unique then Failure(NoSuchKey)
    else
      match Insert(table, rows, strategy)
      case None => Failure(Conflict)
      case Some(w) => Success(w)
  }

  /** The rows of an entry written to its table. */
  function Write(p: Progress, named: Named, rows: seq<Row>, o: Options): Result<Progress, Error>
    requires named.table in p.tables
  {
    var name, entry := named.table, named.entry;
    var table := p.tables[name];
    if rows == [] then
      Success(p.(items := p.items + [Item(name, Skipping, 0)], seeded := p.seeded[name := []]))
    else if !Valid(entry, rows) then Failure(InvalidRow)
    else if o.dryRun then
      Success(p.(items := p.items + [Item(name, Skipping, |rows|)], seeded := p.seeded[name := []],
                 skipped := p.skipped + |rows|))
    else
      match Store(table, rows, entry.unique.UnwrapOr(table.unique), StrategyOf(entry, o), p.aborted)
      case Failure(error) => Failure(error)
      case Success(w) =>
        var live := QueryBack(w.rows, rows, table.unique);
        var n := |w.returned|;
        Success(p.(
          tables := p.tables[name := table.(rows := w.rows)],
          seeded := p.seeded[name := if live != [] then live else w.returned],
          inserted := p.inserted + n,
          skipped := p.skipped + if n < |rows| then |rows| - n else 0,
          items := p.items + [Item(name, if StrategyOf(entry, o) == Replace then Updating else Inserting, n)]))
  }

  /** The `try` of one table. */
  function Attempt(p: Progress, named: Named, o: Options, cached: Seeded, nonce: int): Result<Progress, Error> {
    if named.table !in p.tables then Failure(UnknownTable)
    else
      match Rows(named, cached, p.seeded, nonce)
      case Failure(error) => Failure(error)
      case Success(rows) => Write(p, named, rows, o)
  }

  /** Whether this error ends the transaction for the database. */
  predicate Aborts(p: Progress, named: Named, o: Options, error: Error) {
    o.transaction && FromDatabase(error) && named.table in p.tables && p.tables[named.table].dialect.Postgres?
  }

  /** One table, with its `catch`. */
  function Turn(p: Progress, named: Named, o: Options, cached: Seeded, nonce: int): Progress {
    if p.thrown.Some? then p
    else
      match Attempt(p, named, o, cached, nonce)
      case Success(next) => next
      case Failure(error) =>
        p.(failed := p.failed + 1, items := p.items + [Item(named.table, Failing, 0)],
           thrown := if o.failFast then Some(error) else None, aborted := p.aborted || Aborts(p, named, o, error))
  }

  function Execute(tables: Tables, def: seq<Named>, o: Options, cached: Seeded, nonce: int): Progress {
    if def == [] then Begin(tables)
    else
      var n := |def| - 1;
      Turn(Execute(tables, def[..n], o, cached, nonce), def[n], o, cached, nonce)
  }

  /** Before a transaction: every entry's rows, resolvers seeing the rows offered before them. */
  function Preview(tables: Tables, def: seq<Named>, nonce: int): Result<Seeded, Error> {
    if def == [] then Success(map[])
    else
      var n := |def| - 1;
      match Preview(tables, def[..n], nonce)
      case Failure(error) => Failure(error)
      case Success(seeded) =>
        if def[n].table !in tables then Failure(UnknownTable)
        else
          match Offered(def[n].entry, seeded, nonce)
          case Failure(error) => Failure(error)
          case Success(rows) =>
            if Valid(def[n].entry, rows) then Success(seeded[def[n].table := rows]) else Failure(InvalidRow)
  }

  // ---------------------------------------------------------------------------
  // The code
  // ---------------------------------------------------------------------------

  datatype Report = Report(inserted: nat, skipped: nat, failed: nat, items: seq<Item>)

  function ReportOf(p: Progress): Result<Report, Error> {
    if p.thrown.Some? then Failure(p.thrown.value) else Success(Report(p.inserted, p.skipped, p.failed, p.items))
  }

  /** Nothing of the run is committed. */
  predicate RolledBack(p: Progress) { p.thrown.Some? || p.aborted }

  /** What a run reports and what it leaves: a transaction that is rolled back leaves everything as it was. */
  function Outcome(tables: Tables, def: seq<Named>, o: Options, nonce: int): (Result<Report, Error>, Tables) {
    if !o.transaction then
      var p := Execute(tables, def, o, map[], nonce);
      (ReportOf(p), p.tables)
    else
      match Preview(tables, def, nonce)
      case Failure(error) => (Failure(error), tables)
      case Success(cached) =>
        var p := Execute(tables, def, o, cached, nonce);
        (ReportOf(p), if RolledBack(p) then tables else p.tables)
  }

  /** The run of a transaction that leaves nothing behind. */
  predicate LeavesNothing(tables: Tables, def: seq<Named>, o: Options, nonce: int) {
    o.transaction && (Preview(tables, def, nonce).Failure?
      || RolledBack(Execute(tables, def, o, Preview(tables, def, nonce).value, nonce)))
  }

  class SeedService {
    var tables: Tables

    /** The database has aborted the transaction that is open. */
    var aborted: bool

    /** insertRows: the insert of the strategy, then the live rows. */
    method InsertRows(name: string, rows: seq<Row>, target: seq<string>, strategy: Strategy, transaction: bool)
      returns (r: Result<(seq<Row>, seq<Row>), Error>)
      requires name in tables
      modifies this
      ensures var was := old(tables)[name];
        match Store(was, rows, target, strategy, old(aborted))
        case Failure(error) =>
          && r == Failure(error) && tables == old(tables)
          && aborted == (old(aborted) || (transaction && was.dialect.Postgres?))
        case Success(w) =>
          && r == Success((w.returned, QueryBack(w.rows, rows, was.unique)))
          && tables == old(tables)[name := was.(rows := w.rows)] && aborted == old(aborted)
    {
      hide Insert, QueryBack;
      var table := tables[name];
      var written := Store(table, rows, target, strategy, aborted);
      if written.Failure? {
        aborted := aborted || (transaction && table.dialect.Postgres?);
        return Failure(written.error);
      }
      tables := tables[name := table.(rows := written.value.rows)];
      var live := QueryBackRows(tables[name], rows);
      return Success((written.value.returned, live));
    }

    method ExecuteSeed(def: seq<Named>, o: Options, cached: Seeded, nonce: int) returns (r: Result<Report, Error>)
      requires !aborted
      modifies this
      ensures var p := Execute(old(tables), def, o, cached, nonce);
        tables == p.tables && aborted == p.aborted && r == ReportOf(p)
    {
      hide Attempt, Write, Store, QueryBack;
      var seeded: Seeded, items: seq<Item> := map[], [];
      var totalInserted: nat, totalSkipped: nat, totalFailed: nat := 0, 0, 0;
      ghost var p := Begin(tables);
      for i := 0 to |def|
        invariant p == Execute(old(tables), def[..i], o, cached, nonce)
        invariant p == Progress(tables, seeded, totalInserted, totalSkipped, totalFailed, items, None, aborted)
      {
        assert def[..i + 1][..i] == def[..i];
        var item, rows, error := SeedOne(def[i], o, cached, nonce, seeded, p);
        p := Turn(p, def[i], o, cached, nonce);
        items := items + [item];
        if error.Some? {
          totalFailed := totalFailed + 1;
          if o.failFast {
            ThrownStays(old(tables), def, i + 1, o, cached, nonce);
            return Failure(error.value);
          }
          continue;
        }
        seeded := seeded[def[i].table := rows.0];
        if item.operation != Skipping { totalInserted := totalInserted + item.count; }
        totalSkipped := totalSkipped + rows.1;
      }
      assert def[..|def|] == def;
      return Success(Report(totalInserted, totalSkipped, totalFailed, items));
    }

    /** The rest of the body of the loop, for the rows resolved: see `SeedOne`. */
    method SeedRows(named: Named, offered: seq<Row>, o: Options, seeded: Seeded, ghost p: Progress)
      returns (item: Item, rows: (seq<Row>, nat), error: Option<Error>)
      requires p.tables == tables && p.seeded == seeded && p.aborted == aborted && named.table in tables
      modifies this
      ensures
        match Write(p, named, offered, o)
        case Failure(e) =>
          && error == Some(e) && item == Item(named.table, Failing, 0) && tables == old(tables)
          && aborted == (old(aborted) || Aborts(p, named, o, e))
        case Success(next) => error == None && aborted == old(aborted) && next == p.(
          tables := tables, seeded := seeded[named.table := rows.0], skipped := p.skipped + rows.1,
          inserted := p.inserted + (if item.operation == Skipping then 0 else item.count), items := p.items + [item])
    {
      hide Store, QueryBack, Valid;
      item, rows, error := Item(named.table, Failing, 0), ([], 0), None;
      var entry := named.entry;
      if offered == [] { return Item(named.table, Skipping, 0), rows, None; }
      if !Valid(entry, offered) { return item, rows, Some(InvalidRow); }
      if o.dryRun { return Item(named.table, Skipping, |offered|), ([], |offered|), None; }
      var strategy := StrategyOf(entry, o);
      var target := entry.unique.UnwrapOr(tables[named.table].unique);
      var written := InsertRows(named.table, offered, target, strategy, o.transaction);
      if written.Failure? { return item, rows, Some(written.error); }
      var inserted := |written.value.0|;
      item := Item(named.table, if strategy == Replace then Updating else Inserting, inserted);
      rows := (if written.value.1 != [] then written.value.1 else written.value.0,
        if inserted < |offered| then |offered| - inserted else 0);
    }

    /** The body of the loop: the report line, what resolvers will see with the rows skipped, or the error. */
    method SeedOne(named: Named, o: Options, cached: Seeded, nonce: int, seeded: Seeded, ghost p: Progress)
      returns (item: Item, rows: (seq<Row>, nat), error: Option<Error>)
      requires p.tables == tables && p.seeded == seeded && p.aborted == aborted
      modifies this
      ensures
        match Attempt(p, named, o, cached, nonce)
        case Failure(e) =>
          && error == Some(e) && item == Item(named.table, Failing, 0) && tables == old(tables)
          && aborted == (old(aborted) || Aborts(p, named, o, e))
        case Success(next) => error == None && aborted == old(aborted) && next == p.(
          tables := tables, seeded := seeded[named.table := rows.0], skipped := p.skipped + rows.1,
          inserted := p.inserted + (if item.operation == Skipping then 0 else item.count), items := p.items + [item])
    {
      hide Write, Offered;
      item, rows, error := Item(named.table, Failing, 0), ([], 0), None;
      if named.table !in tables { return item, rows, Some(UnknownTable); }
      var offered := Rows(named, cached, seeded, nonce);
      if offered.Failure? { return item, rows, Some(offered.error); }
      item, rows, error := SeedRows(named, offered.value, o, seeded, p);
    }

    /**
      In a transaction rows are resolved up front, and an error rolls everything back, as PostgreSQL
      does at COMMIT with a transaction that it has aborted.
     */
    method Run(def: seq<Named>, o: Options, nonce: int) returns (r: Result<Report, Error>)
      modifies this
      ensures (r, tables) == Outcome(old(tables), def, o, nonce)
    {
      hide Execute;
      aborted := false;
      if !o.transaction {
        r := ExecuteSeed(def, o, map[], nonce);
        return;
      }
      var previewSeeded: Seeded := map[];
      for i := 0 to |def|
        invariant tables == old(tables) && Preview(tables, def[..i], nonce) == Success(previewSeeded)
      {
        assert def[..i + 1][..i] == def[..i];
        var offered := Offered(def[i].entry, previewSeeded, nonce);
        var failure :=
          if def[i].table !in tables then Some(UnknownTable)
          else if offered.Failure? then Some(offered.error)
          else if !Valid(def[i].entry, offered.value) then Some(InvalidRow) else None;
        if failure.Some? {
          PreviewStops(tables, def, i + 1, nonce);
          return Failure(failure.value);
        }
        previewSeeded := previewSeeded[def[i].table := offered.value];
      }
      assert def[..|def|] == def;
      var before := tables;
      r := ExecuteSeed(def, o, previewSeeded, nonce);
      if r.Failure? || aborted { tables := before; }
    }
  }

  lemma {:induction false} ThrownStays(tables: Tables, def: seq<Named>, i: nat, o: Options, cached: Seeded, nonce: int)
    requires i <= |def| && Execute(tables, def[..i], o, cached, nonce).thrown.Some?
    ensures Execute(tables, def, o, cached, nonce) == Execute(tables, def[..i], o, cached, nonce)
    decreases |def|
  {
    if i < |def| {
      var n := |def| - 1;
      assert def[..n][..i] == def[..i];
      ThrownStays(tables, def[..n], i, o, cached, nonce);
    } else {
      assert def[..i] == def;
    }
  }

  lemma {:induction false} PreviewStops(tables: Tables, def: seq<Named>, i: nat, nonce: int)
    requires i <= |def| && Preview(tables, def[..i], nonce).Failure?
    ensures Preview(tables, def, nonce) == Preview(tables, def[..i], nonce)
    decreases |def|
  {
    if i < |def| {
      var n := |def| - 1;
      assert def[..n][..i] == def[..i];
      PreviewStops(tables, def[..n], i, nonce);
    } else {
      assert def[..i] == def;
    }
  }

  // ---------------------------------------------------------------------------
  // Runs that skip
  // ---------------------------------------------------------------------------

  predicate AllSkip(def: seq<Named>, o: Options) {
    forall i :: 0 <= i < |def| ==> StrategyOf(def[i].entry, o) == Skip
  }

  /** The keys of a definition are distinct, as an object's are. */
  predicate Distinct(def: seq<Named>) {
    forall i, j :: 0 <= i < j < |def| ==> def[i].table != def[j].table
  }

  /** Nothing but rows at the end is added to the tables. */
  ghost predicate Extends(was: Tables, now: Tables) {
    was.Keys == now.Keys
    && forall t :: t in was ==> now[t].unique == was[t].unique && was[t].rows <= now[t].rows
  }

  lemma TurnExtends(p: Progress, named: Named, o: Options, cached: Seeded, nonce: int)
    requires StrategyOf(named.entry, o) == Skip
    ensures Extends(p.tables, Turn(p, named, o, cached, nonce).tables)
  {
    hide InsertSkip, QueryBack;
  }

  /** Whatever happens in the run, with errors or without, existing rows stay as they were. */
  lemma {:induction false} ExistingRowsStay(tables: Tables, def: seq<Named>, o: Options, cached: Seeded, nonce: int)
    requires AllSkip(def, o)
    ensures Extends(tables, Execute(tables, def, o, cached, nonce).tables)
  {
    hide Turn, StrategyOf;
    if def != [] {
      var n := |def| - 1;
      assert forall i :: 0 <= i < n ==> def[..n][i] == def[i];
      ExistingRowsStay(tables, def[..n], o, cached, nonce);
      TurnExtends(Execute(tables, def[..n], o, cached, nonce), def[n], o, cached, nonce);
    }
  }

  // ---------------------------------------------------------------------------
  // Every run
  // ---------------------------------------------------------------------------

  ghost predicate SameShape(was: Tables, now: Tables) {
    was.Keys == now.Keys && forall t :: t in was ==> now[t] == was[t].(rows := now[t].rows)
  }

  lemma TurnIsLocal(p: Progress, named: Named, o: Options, cached: Seeded, nonce: int)
    ensures SameShape(p.tables, Turn(p, named, o, cached, nonce).tables)
    ensures forall t :: t != named.table && t in p.tables ==> Turn(p, named, o, cached, nonce).tables[t] == p.tables[t]
  {
    hide Store, QueryBack;
  }

  lemma {:induction false} ShapeStays(tables: Tables, def: seq<Named>, o: Options, cached: Seeded, nonce: int)
    ensures SameShape(tables, Execute(tables, def, o, cached, nonce).tables)
  {
    hide Turn;
    if def != [] {
      var n := |def| - 1;
      ShapeStays(tables, def[..n], o, cached, nonce);
      TurnIsLocal(Execute(tables, def[..n], o, cached, nonce), def[n], o, cached, nonce);
    }
  }

  /** A table that the rest of the definition does not name stays as it is. */
  lemma {:induction false} OthersStay(
      tables: Tables, def: seq<Named>, i: nat, o: Options, cached: Seeded, nonce: int, t: string)
    requires i <= |def| && t in tables
    requires forall j :: i <= j < |def| ==> def[j].table != t
    ensures t in Execute(tables, def[..i], o, cached, nonce).tables
    ensures t in Execute(tables, def, o, cached, nonce).tables
    ensures Execute(tables, def, o, cached, nonce).tables[t] == Execute(tables, def[..i], o, cached, nonce).tables[t]
    decreases |def|
  {
    hide Turn;
    ShapeStays(tables, def, o, cached, nonce);
    if i == |def| {
      assert def[..i] == def;
    } else {
      var n := |def| - 1;
      assert forall j :: 0 <= j < n ==> def[..n][j] == def[j];
      assert def[..n][..i] == def[..i];
      OthersStay(tables, def[..n], i, o, cached, nonce, t);
      TurnIsLocal(Execute(tables, def[..n], o, cached, nonce), def[n], o, cached, nonce);
    }
  }

  /** Once PostgreSQL has aborted the transaction, the rest of the run inserts nothing. */
  lemma {:induction false} AbortedIsFinal(
      tables: Tables, def: seq<Named>, i: nat, o: Options, cached: Seeded, nonce: int)
    requires i <= |def| && Execute(tables, def[..i], o, cached, nonce).aborted
    ensures var p, q := Execute(tables, def[..i], o, cached, nonce), Execute(tables, def, o, cached, nonce);
      q.aborted && q.tables == p.tables && q.inserted == p.inserted
    decreases |def|
  {
    hide Rows, Valid, StrategyOf, Insert, QueryBack;
    if i == |def| {
      assert def[..i] == def;
    } else {
      var n := |def| - 1;
      assert def[..n][..i] == def[..i];
      AbortedIsFinal(tables, def[..n], i, o, cached, nonce);
    }
  }

  // ---------------------------------------------------------------------------
  // Counts
  // ---------------------------------------------------------------------------

  /** How many rows the entries that did not fail had offered. */
  function OfferedRows(tables: Tables, def: seq<Named>, o: Options, cached: Seeded, nonce: int): nat {
    if def == [] then 0
    else
      var n := |def| - 1;
      var p, rest := Execute(tables, def[..n], o, cached, nonce), OfferedRows(tables, def[..n], o, cached, nonce);
      if p.thrown.Some? || Attempt(p, def[n], o, cached, nonce).Failure? then rest
      else rest + |Rows(def[n], cached, p.seeded, nonce).value|
  }

  lemma TurnCounts(p: Progress, named: Named, o: Options, cached: Seeded, nonce: int)
    requires Attempt(p, named, o, cached, nonce).Success?
    ensures var q := Attempt(p, named, o, cached, nonce).value;
      var rows := Rows(named, cached, p.seeded, nonce).value;
      q.inserted + q.skipped == p.inserted + p.skipped + |rows|
  {
    hide InsertSkip, Upsert, QueryBack;
    if named.table in p.tables {
      var t := p.tables[named.table];
      UpsertReturnsAll(t.rows, Rows(named, cached, p.seeded, nonce).value, t.unique);
    }
  }

  /** Every row offered is either inserted or skipped, also when other entries fail. */
  lemma {:induction false} NothingIsLost(tables: Tables, def: seq<Named>, o: Options, cached: Seeded, nonce: int)
    ensures var p := Execute(tables, def, o, cached, nonce);
      p.inserted + p.skipped == OfferedRows(tables, def, o, cached, nonce)
  {
    hide Attempt, StrategyOf, Rows;
    if def != [] {
      var n := |def| - 1;
      NothingIsLost(tables, def[..n], o, cached, nonce);
      var p := Execute(tables, def[..n], o, cached, nonce);
      if p.thrown.None? && Attempt(p, def[n], o, cached, nonce).Success? {
        TurnCounts(p, def[n], o, cached, nonce);
      }
    }
  }

  /** How many rows the tables of a definition have more. */
  function Growth(was: Tables, now: Tables, def: seq<Named>): int {
    if def == [] then 0
    else
      var n := |def| - 1;
      var t := def[n].table;
      Growth(was, now, def[..n]) + if t in was && t in now then |now[t].rows| - |was[t].rows| else 0
  }

  lemma {:induction false} GrowthStays(was: Tables, now: Tables, later: Tables, def: seq<Named>)
    requires now.Keys == later.Keys
    requires forall i :: 0 <= i < |def| && def[i].table in now ==> later[def[i].table] == now[def[i].table]
    ensures Growth(was, later, def) == Growth(was, now, def)
  {
    if def != [] {
      var n := |def| - 1;
      assert forall i :: 0 <= i < n ==> def[..n][i] == def[i];
      GrowthStays(was, now, later, def[..n]);
    }
  }

  lemma {:induction false} NoGrowth(tables: Tables, def: seq<Named>)
    ensures Growth(tables, tables, def) == 0
  {
    if def != [] { NoGrowth(tables, def[..|def| - 1]); }
  }

  lemma TurnGrows(p: Progress, named: Named, o: Options, cached: Seeded, nonce: int)
    requires StrategyOf(named.entry, o) != Replace
    ensures var q := Turn(p, named, o, cached, nonce);
      q.inserted - p.inserted == Growth(p.tables, q.tables, [named])
  {
    hide InsertSkip, QueryBack, Valid, Rows;
    assert [named][..0] == [];
  }

  /** Nothing is replaced: what is inserted is new. */
  predicate NeverReplaces(def: seq<Named>, o: Options) {
    forall i :: 0 <= i < |def| ==> StrategyOf(def[i].entry, o) != Replace
  }

  /** The count of a run is the number of rows that its tables have gained. */
  lemma {:induction false} InsertedIsGrowth(tables: Tables, def: seq<Named>, o: Options, cached: Seeded, nonce: int)
    requires NeverReplaces(def, o) && Distinct(def)
    ensures var p := Execute(tables, def, o, cached, nonce); p.inserted == Growth(tables, p.tables, def)
  {
    hide Turn, StrategyOf;
    if def != [] {
      var n := |def| - 1;
      var front, last := def[..n], def[n];
      assert forall i :: 0 <= i < n ==> front[i] == def[i];
      InsertedIsGrowth(tables, front, o, cached, nonce);
      var p := Execute(tables, front, o, cached, nonce);
      var q := Turn(p, last, o, cached, nonce);
      ShapeStays(tables, front, o, cached, nonce);
      TurnIsLocal(p, last, o, cached, nonce);
      TurnGrows(p, last, o, cached, nonce);
      GrowthStays(tables, p.tables, q.tables, front);
      if last.table in tables {
        assert front[..0] == [];
        OthersStay(tables, front, 0, o, cached, nonce, last.table);
      }
      assert [last][..0] == [];
    }
  }

  /**
    The report counts what the tables have gained, unless PostgreSQL has aborted the transaction:
    then the rows counted are all gone.
   */
  lemma ReportCountsGrowth(tables: Tables, def: seq<Named>, o: Options, nonce: int)
    requires NeverReplaces(def, o) && Distinct(def) && Outcome(tables, def, o, nonce).0.Success?
    ensures var (report, later) := Outcome(tables, def, o, nonce);
      Growth(tables, later, def) == if LeavesNothing(tables, def, o, nonce) then 0 else report.value.inserted
  {
    hide Execute, Preview;
    NoGrowth(tables, def);
    if !o.transaction {
      InsertedIsGrowth(tables, def, o, map[], nonce);
    } else {
      InsertedIsGrowth(tables, def, o, Preview(tables, def, nonce).value, nonce);
    }
  }

  /** One row into an empty table, and the same row into a table that has it. */
  lemma PlainInserts(row: Row)
    requires "id" in row
    ensures Insert(Table(Postgres, ["id"], []), [row], Fail) == Some(Written([row], [row]))
    ensures Insert(Table(Postgres, ["id"], [row]), [row], Fail) == None
  {
    var none: seq<Row> := [];
    assert [row][..0] == none;
    assert KeyOf(row, ["id"])[0] == Some(row["id"]);
    assert InsertSkip(none, [row], ["id"]) == Written([row], [row]);
    assert InsertSkip([row], [row], ["id"]) == Written([row], []);
  }

  /** A report of one row inserted, by a transaction that leaves nothing. */
  lemma ReportOfNothing()
    ensures exists tables: Tables, def, o, nonce ::
      && NeverReplaces(def, o) && Distinct(def) && Outcome(tables, def, o, nonce).1 == tables
      && Outcome(tables, def, o, nonce).0.Success? && Outcome(tables, def, o, nonce).0.value.inserted == 1
  {
    hide Insert, QueryBack;
    var row: Row := map["id" := 1];
    var tables: Tables := map["a" := Table(Postgres, ["id"], []), "b" := Table(Postgres, ["id"], [row])];
    var first := Named("a", Entry(Given([row]), None, None, None));
    var second := Named("b", Entry(Given([row]), None, None, None));
    var o := Options(Fail, true, false, false);
    var def := [first, second];
    var none: seq<Named> := [];
    assert def[..1] == [first] && [first][..0] == none;
    PlainInserts(row);
    var one: Seeded, all: Seeded := map["a" := [row]], map["a" := [row], "b" := [row]];
    assert Preview(tables, none, 0) == Success(map[]);
    assert Preview(tables, [first], 0) == Success(one);
    assert Preview(tables, def, 0) == Success(all);
    var p := Execute(tables, [first], o, all, 0);
    assert Execute(tables, none, o, all, 0) == Begin(tables);
    assert p == Turn(Begin(tables), first, o, all, 0);
    assert p.inserted == 1 && p.thrown == None && p.tables["b"] == tables["b"];
    assert Execute(tables, def, o, all, 0) == Turn(p, second, o, all, 0);
    assert Attempt(p, second, o, all, 0) == Failure(Conflict);
    assert Outcome(tables, def, o, 0).1 == tables;
  }

  // ---------------------------------------------------------------------------
  // Idempotence
  // ---------------------------------------------------------------------------

  predicate NeverFails(def: seq<Named>, o: Options) {
    forall i :: 0 <= i < |def| ==> StrategyOf(def[i].entry, o) != Fail
  }

  /** The same rows as far as keys go, accepted or refused alike; to be written over others, the very same rows. */
  predicate Alike(entry: Entry, unique: seq<string>, o: Options,
                  a: Result<seq<Row>, Error>, b: Result<seq<Row>, Error>) {
    if a.Failure? then a == b
    else
      && b.Success?
      && SameKeys(a.value, b.value, unique) && AllCarry(a.value, unique)
      && (Valid(entry, a.value) <==> Valid(entry, b.value))
      && (StrategyOf(entry, o) == Replace ==> a == b)
  }

  /**
    What an entry offers carries its unique key, and the nonce does not touch the key, whatever
    was seeded before; rows resolved up front are the same rows both times.
   */
  ghost predicate KeyStable(named: Named, o: Options, tables: Tables, cached: Seeded) {
    named.table in tables ==>
      if named.table in cached then AllCarry(cached[named.table], tables[named.table].unique)
      else forall seeded, x, y ::
        Alike(named.entry, tables[named.table].unique, o,
              Offered(named.entry, seeded, x), Offered(named.entry, seeded, y))
  }

  ghost predicate AllKeyStable(def: seq<Named>, o: Options, tables: Tables, cached: Seeded) {
    forall i :: 0 <= i < |def| ==> KeyStable(def[i], o, tables, cached)
  }

  /** The second run is where the first was, on the tables that the first left. */
  ghost predicate Repeats(first: Progress, second: Progress, tables: Tables) {
    second.tables == tables && second.seeded == first.seeded
    && second.failed == first.failed && second.thrown == first.thrown && second.aborted == first.aborted
  }

  /** What the second of two inserts finds already done. */
  ghost predicate StoredAgain(table: Table, a: seq<Row>, b: seq<Row>, target: seq<string>, strategy: Strategy,
                              aborted: bool) {
    var w := Store(table, a, target, strategy, aborted);
    var after := if w.Success? then table.(rows := w.value.rows) else table;
    var v := Store(after, b, target, strategy, aborted);
    if w.Failure? then v == w
    else
      && v.Success? && v.value.rows == after.rows
      && (strategy == Skip ==> v.value.returned == [])
      && QueryBack(after.rows, b, table.unique) == QueryBack(after.rows, a, table.unique)
      && |QueryBack(after.rows, a, table.unique)| == |a|
  }

  lemma SkipStoredAgain(table: Table, a: seq<Row>, b: seq<Row>, target: seq<string>, aborted: bool)
    requires SameKeys(a, b, table.unique) && AllCarry(a, table.unique)
    ensures StoredAgain(table, a, b, target, Skip, aborted)
  {
    hide InsertSkip, QueryBack, KeyOf, Find;
    SkipAgain(table.rows, a, b, table.unique);
    var after := InsertSkip(table.rows, a, table.unique).rows;
    QueryBackByKey(after, a, b, table.unique);
    forall i | 0 <= i < |a| ensures Find(after, table.unique, KeyOf(a[i], table.unique)).Some? {
      SkipFillsKeys(table.rows, a, table.unique, i);
    }
    QueryBackFindsAll(after, a, table.unique);
  }

  lemma ReplaceStoredAgain(table: Table, rows: seq<Row>, target: seq<string>, aborted: bool)
    requires AllCarry(rows, table.unique)
    ensures StoredAgain(table, rows, rows, target, Replace, aborted)
  {
    hide Upsert, QueryBack, KeyOf, Find, LastWith;
    ReplaceAgain(table.rows, rows, table.unique);
    var after := Upsert(table.rows, rows, table.unique).rows;
    forall i | 0 <= i < |rows| ensures Find(after, table.unique, KeyOf(rows[i], table.unique)).Some? {
      UpsertHolds(table.rows, rows, table.unique, KeyOf(rows[i], table.unique));
      LastIsAfter(rows, table.unique, i);
    }
    QueryBackFindsAll(after, rows, table.unique);
  }

  /** One table the second time: it holds what it is to hold. */
  lemma WriteRepeats(first: Progress, second: Progress, named: Named, a: seq<Row>, b: seq<Row>, o: Options)
    requires named.table in first.tables && named.table in second.tables && StrategyOf(named.entry, o) != Fail
    requires Alike(named.entry, first.tables[named.table].unique, o, Success(a), Success(b))
    requires first.aborted == second.aborted
    requires var w := Write(first, named, a, o);
      second.tables[named.table] == if w.Success? then w.value.tables[named.table] else first.tables[named.table]
    ensures var w, v := Write(first, named, a, o), Write(second, named, b, o);
      if w.Failure? then v == Failure(w.error)
      else
        && v.Success? && v.value.tables == second.tables
        && (StrategyOf(named.entry, o) == Skip ==> v.value.inserted == second.inserted)
        && v.value.seeded == second.seeded[named.table := w.value.seeded[named.table]]
        && w.value.seeded == first.seeded[named.table := w.value.seeded[named.table]]
        && v.value == second.(tables := v.value.tables, seeded := v.value.seeded, inserted := v.value.inserted,
                              skipped := v.value.skipped, items := v.value.items)
        && w.value == first.(tables := w.value.tables, seeded := w.value.seeded, inserted := w.value.inserted,
                             skipped := w.value.skipped, items := w.value.items)
  {
    hide Store, QueryBack, KeyOf;
    var table := first.tables[named.table];
    var target := named.entry.unique.UnwrapOr(table.unique);
    if StrategyOf(named.entry, o) == Skip {
      SkipStoredAgain(table, a, b, target, first.aborted);
    } else {
      ReplaceStoredAgain(table, a, target, first.aborted);
    }
  }

  lemma RowsAlike(named: Named, o: Options, tables: Tables, cached: Seeded, seeded: Seeded, x: int, y: int)
    requires KeyStable(named, o, tables, cached) && named.table in tables
    ensures Alike(named.entry, tables[named.table].unique, o,
                  Rows(named, cached, seeded, x), Rows(named, cached, seeded, y))
  {
    hide KeyOf;
  }

  lemma TurnRepeats(
      first: Progress, second: Progress, named: Named, o: Options, cached: Seeded, x: int, y: int, tables: Tables)
    requires StrategyOf(named.entry, o) != Fail && Repeats(first, second, tables)
    requires SameShape(first.tables, tables) && KeyStable(named, o, first.tables, cached)
    requires named.table in tables ==> tables[named.table] == Turn(first, named, o, cached, x).tables[named.table]
    ensures Repeats(Turn(first, named, o, cached, x), Turn(second, named, o, cached, y), tables)
    ensures StrategyOf(named.entry, o) == Skip ==> Turn(second, named, o, cached, y).inserted == second.inserted
  {
    hide Write, StrategyOf, Alike, KeyStable;
    if first.thrown.None? && named.table in tables {
      var unique := first.tables[named.table].unique;
      var a, b := Rows(named, cached, first.seeded, x), Rows(named, cached, first.seeded, y);
      RowsAlike(named, o, first.tables, cached, first.seeded, x, y);
      AlikeFails(named.entry, unique, o, a, b);
      if a.Success? { WriteRepeats(first, second, named, a.value, b.value, o); }
    }
  }

  lemma AlikeFails(
      entry: Entry, unique: seq<string>, o: Options, a: Result<seq<Row>, Error>, b: Result<seq<Row>, Error>)
    requires Alike(entry, unique, o, a, b)
    ensures if a.Failure? then a == b else b.Success?
  {}

  lemma {:induction false} PrefixRepeats(
      tables: Tables, def: seq<Named>, i: nat, o: Options, cached: Seeded, x: int, y: int)
    requires NeverFails(def, o) && Distinct(def) && AllKeyStable(def, o, tables, cached) && i <= |def|
    ensures var last := Execute(tables, def, o, cached, x).tables;
      var second := Execute(last, def[..i], o, cached, y);
      Repeats(Execute(tables, def[..i], o, cached, x), second, last) && (AllSkip(def, o) ==> second.inserted == 0)
  {
    hide Turn, StrategyOf, KeyStable;
    var last := Execute(tables, def, o, cached, x).tables;
    if i > 0 {
      var n := i - 1;
      var named := def[n];
      assert def[..i][..n] == def[..n];
      assert forall j :: 0 <= j < i ==> def[..i][j] == def[j];
      PrefixRepeats(tables, def, n, o, cached, x, y);
      ShapeStays(tables, def, o, cached, x);
      ShapeStays(tables, def[..n], o, cached, x);
      var first, second := Execute(tables, def[..n], o, cached, x), Execute(last, def[..n], o, cached, y);
      StableLater(named, o, tables, first.tables, cached);
      if named.table in tables { OthersStay(tables, def, i, o, cached, x, named.table); }
      TurnRepeats(first, second, named, o, cached, x, y, last);
    }
  }

  lemma StableLater(named: Named, o: Options, tables: Tables, later: Tables, cached: Seeded)
    requires KeyStable(named, o, tables, cached) && SameShape(tables, later)
    ensures KeyStable(named, o, later, cached)
  {
    hide Alike;
  }

  /**
    Seeding is idempotent: with every conflict skipped and keys that do not depend on the run, or
    every conflict replaced and rows that do not, a second run changes nothing, shows its resolvers
    the very same rows, and fails where the first did; if it skips, it inserts nothing.
   */
  lemma {:induction false} SecondRunChangesNothing(
      tables: Tables, def: seq<Named>, o: Options, cached: Seeded, x: int, y: int)
    requires NeverFails(def, o) && Distinct(def) && AllKeyStable(def, o, tables, cached)
    ensures var first := Execute(tables, def, o, cached, x);
      var second := Execute(first.tables, def, o, cached, y);
      && Repeats(first, second, first.tables)
      && (AllSkip(def, o) ==> second.inserted == 0)
  {
    hide Execute, Repeats, AllSkip;
    PrefixRepeats(tables, def, |def|, o, cached, x, y);
    assert def[..|def|] == def;
  }

  /** Resolvers whose rows, not only their keys, are the same in every run. */
  ghost predicate NonceFree(def: seq<Named>) {
    forall i, seeded, x, y :: 0 <= i < |def| ==> Offered(def[i].entry, seeded, x) == Offered(def[i].entry, seeded, y)
  }

  /** Rows resolved up front come from resolvers alone: what was written in between does not change them. */
  lemma {:induction false} PreviewAgain(tables: Tables, later: Tables, def: seq<Named>, x: int, y: int)
    requires NonceFree(def) && tables.Keys == later.Keys
    ensures Preview(later, def, y) == Preview(tables, def, x)
  {
    hide Offered;
    if def != [] {
      var n := |def| - 1;
      assert forall i :: 0 <= i < n ==> def[..n][i] == def[i];
      PreviewAgain(tables, later, def[..n], x, y);
    }
  }

  /** Every table of a definition is resolved up front. */
  lemma {:induction false} PreviewCovers(tables: Tables, def: seq<Named>, nonce: int)
    requires Preview(tables, def, nonce).Success?
    ensures forall i :: 0 <= i < |def| ==> def[i].table in Preview(tables, def, nonce).value
  {
    hide Offered, Valid;
    if def != [] {
      var n := |def| - 1;
      PreviewCovers(tables, def[..n], nonce);
      assert forall i :: 0 <= i < n ==> def[..n][i] == def[i];
    }
  }

  /** With all rows resolved up front, the run itself asks no resolver. */
  lemma {:induction false} ExecuteAsksNobody(
      tables: Tables, def: seq<Named>, o: Options, cached: Seeded, x: int, y: int)
    requires forall i :: 0 <= i < |def| ==> def[i].table in cached
    ensures Execute(tables, def, o, cached, x) == Execute(tables, def, o, cached, y)
  {
    hide Write, Offered;
    if def != [] {
      var n := |def| - 1;
      assert forall i :: 0 <= i < n ==> def[..n][i] == def[i];
      ExecuteAsksNobody(tables, def[..n], o, cached, x, y);
    }
  }

  /** What a definition must promise: the same keys in every run, or in a transaction the same rows. */
  ghost predicate Repeatable(tables: Tables, def: seq<Named>, o: Options, nonce: int) {
    if o.transaction then
      NonceFree(def) && (Preview(tables, def, nonce).Success? ==>
        AllKeyStable(def, o, tables, Preview(tables, def, nonce).value))
    else AllKeyStable(def, o, tables, map[])
  }

  /** How the outcome of a second run compares to that of the first. */
  ghost predicate SecondTime(first: (Result<Report, Error>, Tables), second: (Result<Report, Error>, Tables),
                             nothing: bool, skips: bool) {
    && second.1 == first.1
    && (if first.0.Failure? then second.0 == first.0
        else second.0.Success? && second.0.value.failed == first.0.value.failed)
    && (nothing ==> second.0 == first.0)
    && (skips && !nothing && first.0.Success? ==> second.0.value.inserted == 0)
  }

  lemma SecondTransactionChangesNothing(tables: Tables, def: seq<Named>, o: Options, x: int, y: int)
    requires NeverFails(def, o) && Distinct(def) && o.transaction && Repeatable(tables, def, o, x)
    ensures var first := Outcome(tables, def, o, x);
      SecondTime(first, Outcome(first.1, def, o, y), LeavesNothing(tables, def, o, x), AllSkip(def, o))
  {
    hide AllKeyStable, NonceFree, Preview, Execute, AllSkip;
    if Preview(tables, def, x).Failure? {
      PreviewAgain(tables, tables, def, x, y);
    } else {
      var cached := Preview(tables, def, x).value;
      var p := Execute(tables, def, o, cached, x);
      if RolledBack(p) {
        PreviewAgain(tables, tables, def, x, y);
        PreviewCovers(tables, def, x);
        ExecuteAsksNobody(tables, def, o, cached, x, y);
      } else {
        ShapeStays(tables, def, o, cached, x);
        PreviewAgain(tables, p.tables, def, x, y);
        SecondRunChangesNothing(tables, def, o, cached, x, y);
      }
    }
  }

  /**
    Running a definition twice, whether or not in a transaction, whether or not the first run
    failed or was rolled back, and whether conflicts are skipped or replaced: the second leaves the
    tables as the first left them and fails exactly when the first did, with the same error. If it
    skips every conflict, it inserts nothing, unless both are rolled back and report the same.
   */
  lemma {:induction false} SecondOutcomeChangesNothing(tables: Tables, def: seq<Named>, o: Options, x: int, y: int)
    requires NeverFails(def, o) && Distinct(def) && Repeatable(tables, def, o, x)
    ensures var first := Outcome(tables, def, o, x);
      SecondTime(first, Outcome(first.1, def, o, y), LeavesNothing(tables, def, o, x), AllSkip(def, o))
  {
    hide AllKeyStable, NonceFree, Preview, Execute, AllSkip;
    if o.transaction {
      SecondTransactionChangesNothing(tables, def, o, x, y);
    } else {
      SecondRunChangesNothing(tables, def, o, map[], x, y);
    }
  }

  // ---------------------------------------------------------------------------
  // What resolvers see
  // ---------------------------------------------------------------------------

  /** The rows of a table in `seeded` are the live rows of the keys offered, in the order offered. */
  ghost predicate ShowsLive(p: Progress, t: string, rows: seq<Row>) {
    && t in p.tables && t in p.seeded && |p.seeded[t]| == |rows|
    && forall k :: 0 <= k < |rows| ==>
      Find(p.tables[t].rows, p.tables[t].unique, KeyOf(rows[k], p.tables[t].unique)) == Some(p.seeded[t][k])
  }

  lemma WriteShowsLive(p: Progress, named: Named, rows: seq<Row>, o: Options)
    requires named.table in p.tables && AllCarry(rows, p.tables[named.table].unique)
    requires StrategyOf(named.entry, o) == Skip && !o.dryRun && Write(p, named, rows, o).Success?
    ensures ShowsLive(Write(p, named, rows, o).value, named.table, rows)
  {
    hide InsertSkip, QueryBack, KeyOf, Find;
    var table := p.tables[named.table];
    var after := InsertSkip(table.rows, rows, table.unique).rows;
    forall i | 0 <= i < |rows| ensures Find(after, table.unique, KeyOf(rows[i], table.unique)).Some? {
      SkipFillsKeys(table.rows, rows, table.unique, i);
    }
    QueryBackFindsAll(after, rows, table.unique);
  }

  lemma TurnKeepsOthers(p: Progress, named: Named, o: Options, cached: Seeded, nonce: int, t: string, rows: seq<Row>)
    requires StrategyOf(named.entry, o) == Skip && named.table != t && ShowsLive(p, t, rows)
    ensures ShowsLive(Turn(p, named, o, cached, nonce), t, rows)
  {
    hide InsertSkip, QueryBack, KeyOf, Find;
  }

  /**
    Outside a transaction, what every later resolver is given for a table, and what the table
    holds at the end, are the live rows of all the keys its entry offered: the row that was there
    before wherever one was.
   */
  lemma {:induction false} ResolversSeeLiveRows(tables: Tables, def: seq<Named>, i: nat, j: nat, o: Options, nonce: int)
    requires AllSkip(def, o) && Distinct(def) && i < j <= |def| && !o.dryRun
    requires var p := Execute(tables, def[..i], o, map[], nonce);
      && p.thrown.None? && Attempt(p, def[i], o, map[], nonce).Success?
      && AllCarry(Offered(def[i].entry, p.seeded, nonce).value, p.tables[def[i].table].unique)
    ensures var rows := Offered(def[i].entry, Execute(tables, def[..i], o, map[], nonce).seeded, nonce).value;
      ShowsLive(Execute(tables, def[..j], o, map[], nonce), def[i].table, rows)
    decreases j
  {
    hide Write, ShowsLive, StrategyOf, AllCarry;
    var n := j - 1;
    assert def[..j][..n] == def[..n];
    var p := Execute(tables, def[..n], o, map[], nonce);
    if i == n {
      WriteShowsLive(p, def[i], Offered(def[i].entry, p.seeded, nonce).value, o);
    } else {
      ResolversSeeLiveRows(tables, def, i, n, o, nonce);
      var rows := Offered(def[i].entry, Execute(tables, def[..i], o, map[], nonce).seeded, nonce).value;
      TurnKeepsOthers(p, def[n], o, map[], nonce, def[i].table, rows);
    }
  }
}
