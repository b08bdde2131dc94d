/**
  What TransactionService does with a whole tree of calls: runs on several databases
  nested in one another, retried, joined and failing anywhere, with commit and rollback
  callbacks. A call tree lists, for every invocation of every body, what that invocation
  does; Run is its meaning as a list of events. Observe is an independent referee that
  reads only the events; the main theorem is that it accepts every call tree.
 */
module TransactionTree {
  import opened Base

  type Txn = nat
  type RunId = nat

  datatype Error = Error(message: string, code: string)

  /** A callback either returns or throws. */
  datatype Callback = Callback(id: nat, error: Option<Error>)

  datatype Op =
    | Access(database: string)                              // a repository reads its `db` property
    | ReadDepth                                             // getDepth
    | AfterCommit(database: string, callback: Callback)
    | AfterRollback(database: string, callback: Callback)
    | Nested(call: Call, caught: bool)                      // an inner run; the body may catch its error
    | Throw(error: Error)

  /** One invocation: how BEGIN, the entry hook and COMMIT go, and what the body does. */
  datatype Attempt = Attempt(
    beginError: Option<Error>, entryError: Option<Error>, body: seq<Op>, commitError: Option<Error>)

  /** A `run(fn, { database, retries })`; the last attempt listed stands for all later ones. */
  datatype Call = Call(database: string, retries: nat, first: Attempt, later: seq<Attempt>) {
    function AttemptAt(i: nat): (a: Attempt)
      requires i >= 1
      ensures (this decreases to a)
    {
      if i == 1 || later == [] then first
      else if i - 2 < |later| then later[i - 2] else later[|later| - 1]
    }
  }

  datatype Driver = SyncSqlite | Transactional | NoTransactions

  /**
    The registered databases, and which errors are worth another attempt. No two names are taken
    to share a SQLite client: a run nested under a second name of a client that is in use never
    gets its BEGIN, and has no trace to speak of.
   */
  datatype Config = Config(drivers: map<string, Driver>, retriable: Error -> bool)

  /** The two callback arrays of one outermost run. */
  datatype Arrays = Arrays(commit: seq<Callback>, rollback: seq<Callback>)

  /** The scope a body runs in: the active transactions, the depth, and whose arrays take callbacks. */
  datatype Scope = Scope(active: map<string, Slot>, depth: nat)

  /** An open transaction and the outermost run whose arrays take its callbacks. */
  datatype Slot = Slot(txn: Txn, owner: RunId)

  datatype Hook = OnCommit | OnRollback

  datatype Event =
    | Began(database: string, txn: Txn)
    | Entry(database: string, txn: Txn)                     // beforeTransaction
    | Accessed(database: string, seen: Option<Txn>)         // None: the raw database
    | SawDepth(depth: nat)
    | Joined(database: string)                              // a run joins the transaction that is open
    | Left(database: string)                                // and has ended
    | Hooked(hook: Hook, database: string, callback: Callback)
    | Immediate(database: string, callback: Callback)       // afterCommit outside a transaction
    | Committed(database: string, txn: Txn)
    | RolledBack(database: string, txn: Txn)
    | Ran(callback: Callback)                               // a flushed callback

  datatype Outcome = Returned | Raised(error: Error)

  /** The events, the arrays of all runs so far, the next transaction handle, and how it ended. */
  datatype Effect = Effect(trace: seq<Event>, arrays: seq<Arrays>, next: Txn, outcome: Outcome)

  const NOT_FOUND := Error("not found", "")
  const UNSUPPORTED := Error("Database does not support transactions", "")

  // ---------------------------------------------------------------------------
  // Callbacks
  // ---------------------------------------------------------------------------

  /** Every callback runs, in order, whatever the others do. */
  function Flushed(callbacks: seq<Callback>): (trace: seq<Event>)
    ensures |trace| == |callbacks| && forall i :: 0 <= i < |trace| ==> trace[i] == Ran(callbacks[i])
  {
    seq(|callbacks|, i requires 0 <= i < |callbacks| => Ran(callbacks[i]))
  }

  /** The first error thrown by a callback. */
  function FirstFailure(callbacks: seq<Callback>): Option<Error> {
    if callbacks == [] then None
    else if callbacks[0].error.Some? then callbacks[0].error
    else FirstFailure(callbacks[1..])
  }

  function Raises(failure: Option<Error>, otherwise: Outcome): Outcome {
    if failure.Some? then Raised(failure.value) else otherwise
  }

  // ---------------------------------------------------------------------------
  // The meaning of a call tree
  // ---------------------------------------------------------------------------

  /** Every active database has the arrays of a run of its own. */
  ghost predicate ValidScope(scope: Scope, runs: nat) {
    && (forall d :: d in scope.active ==> scope.active[d].owner < runs)
    && (forall d, e :: d in scope.active && e in scope.active && d != e ==>
      scope.active[d].owner != scope.active[e].owner)
  }

  /** Run `id`, on a database that is not active, owns its arrays alone. */
  ghost predicate Owns(scope: Scope, runs: nat, database: string, id: RunId) {
    && ValidScope(scope, runs) && database !in scope.active && id < runs
    && forall d :: d in scope.active ==> scope.active[d].owner != id
  }

  function Then(trace: seq<Event>, r: Effect): Effect {
    Effect(trace + r.trace, r.arrays, r.next, r.outcome)
  }

  lemma ThenThen(a: seq<Event>, b: seq<Event>, r: Effect)
    ensures Then(a, Then(b, r)) == Then(a + b, r)
    ensures Then(a, Effect(b, r.arrays, r.next, r.outcome)) == Effect(a + b, r.arrays, r.next, r.outcome)
  {
    assert a + (b + r.trace) == a + b + r.trace;
  }

  function Run(cfg: Config, scope: Scope, arrays: seq<Arrays>, next: Txn, call: Call): (r: Effect)
    requires ValidScope(scope, |arrays|)
    ensures |r.arrays| >= |arrays|
    decreases call, 3
  {
    if call.database in scope.active then
      var r := Body(cfg, scope.(depth := scope.depth + 1), arrays, next, call.first.body);
      r.(trace := [Joined(call.database)] + r.trace + [Left(call.database)])
    else if call.database !in cfg.drivers then
      Effect([], arrays, next, Raised(NOT_FOUND))
    else
      var id := |arrays|;
      var r := Retry(cfg, scope, arrays + [Arrays([], [])], next, call, 1, id);
      if r.outcome.Raised? then r
      else
        Effect(r.trace + Flushed(r.arrays[id].commit), r.arrays, r.next,
               Raises(FirstFailure(r.arrays[id].commit), Returned))
  }

  function Retry(
      cfg: Config, scope: Scope, arrays: seq<Arrays>, next: Txn, call: Call, attempt: nat, id: RunId): (r: Effect)
    requires Owns(scope, |arrays|, call.database, id)
    requires call.database in cfg.drivers && 1 <= attempt <= call.retries + 1
    ensures |r.arrays| >= |arrays|
    decreases call, 2, call.retries + 1 - attempt
  {
    var r := Execute(cfg, scope, arrays[id := Arrays([], [])], next, call, attempt, id);
    if r.outcome.Returned? then r
    else
      var undo := r.arrays[id].rollback;
      var failure := FirstFailure(undo);
      if failure.None? && attempt < call.retries + 1 && cfg.retriable(r.outcome.error) then
        Then(r.trace + Flushed(undo), Retry(cfg, scope, r.arrays, r.next, call, attempt + 1, id))
      else
        Effect(r.trace + Flushed(undo), r.arrays, r.next, Raises(failure, r.outcome))
  }

  function Inside(scope: Scope, database: string, txn: Txn, id: RunId): Scope {
    Scope(scope.active[database := Slot(txn, id)], scope.depth + 1)
  }

  function Execute(
      cfg: Config, scope: Scope, arrays: seq<Arrays>, next: Txn, call: Call, attempt: nat, id: RunId): (r: Effect)
    requires Owns(scope, |arrays|, call.database, id)
    requires call.database in cfg.drivers && attempt >= 1
    ensures |r.arrays| >= |arrays|
    decreases call, 1
  {
    var a := call.AttemptAt(attempt);
    var d := call.database;
    if cfg.drivers[d].NoTransactions? then Effect([], arrays, next, Raised(UNSUPPORTED))
    else if a.beginError.Some? then Effect([], arrays, next, Raised(a.beginError.value))
    else
      var r := Invoke(cfg, Inside(scope, d, next, id), arrays, next + 1, a);
      var start := [Began(d, next), Entry(d, next)];
      if r.outcome.Returned? && a.commitError.None? then
        r.(trace := start + r.trace + [Committed(d, next)])
      else
        r.(trace := start + r.trace + [RolledBack(d, next)],
           outcome := if r.outcome.Raised? then r.outcome else Raised(a.commitError.value))
  }

  /** The entry hook and then the body. */
  function Invoke(cfg: Config, scope: Scope, arrays: seq<Arrays>, next: Txn, a: Attempt): (r: Effect)
    requires ValidScope(scope, |arrays|)
    ensures |r.arrays| >= |arrays|
    decreases a
  {
    if a.entryError.Some? then Effect([], arrays, next, Raised(a.entryError.value))
    else Body(cfg, scope, arrays, next, a.body)
  }

  function Body(cfg: Config, scope: Scope, arrays: seq<Arrays>, next: Txn, ops: seq<Op>): (r: Effect)
    requires ValidScope(scope, |arrays|)
    ensures |r.arrays| >= |arrays|
    decreases ops, 4
  {
    if ops == [] then Effect([], arrays, next, Returned)
    else
      var one := Perform(cfg, scope, arrays, next, ops[0]);
      if one.outcome.Raised? then one
      else
        Then(one.trace, Body(cfg, scope, one.arrays, one.next, ops[1..]))
  }

  function Pushed(arrays: seq<Arrays>, id: RunId, hook: Hook, callback: Callback): (r: seq<Arrays>)
    requires id < |arrays|
    ensures |r| == |arrays|
  {
    var a := arrays[id];
    arrays[id := if hook.OnCommit? then a.(commit := a.commit + [callback])
                 else a.(rollback := a.rollback + [callback])]
  }

  function Perform(cfg: Config, scope: Scope, arrays: seq<Arrays>, next: Txn, op: Op): (r: Effect)
    requires ValidScope(scope, |arrays|)
    ensures |r.arrays| >= |arrays|
    decreases op, 4
  {
    match op
    case Access(d) =>
      Effect([Accessed(d, GetActive(scope, d))], arrays, next, Returned)
    case ReadDepth =>
      Effect([SawDepth(scope.depth)], arrays, next, Returned)
    case AfterCommit(d, callback) =>
      if d in scope.active then
        var pushed := Pushed(arrays, scope.active[d].owner, OnCommit, callback);
        Effect([Hooked(OnCommit, d, callback)], pushed, next, Returned)
      else
        Effect([Immediate(d, callback)], arrays, next, Raises(callback.error, Returned))
    case AfterRollback(d, callback) =>
      if d in scope.active then
        var pushed := Pushed(arrays, scope.active[d].owner, OnRollback, callback);
        Effect([Hooked(OnRollback, d, callback)], pushed, next, Returned)
      else
        Effect([], arrays, next, Returned)
    case Nested(call, caught) =>
      var r := Run(cfg, scope, arrays, next, call);
      if caught then r.(outcome := Returned) else r
    case Throw(error) =>
      Effect([], arrays, next, Raised(error))
  }

  /** getActive: the transaction of the scope, or none. */
  function GetActive(scope: Scope, database: string): Option<Txn> {
    if database in scope.active then Some(scope.active[database].txn) else None
  }
}
