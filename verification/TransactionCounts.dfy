/** How often each outermost run begins, commits and rolls back, counted over its whole trace. */
module TransactionCounts {
  import opened Base
  import opened TransactionTree

  datatype Kind = Begins | Commits | Rollbacks

  predicate Is(e: Event, kind: Kind, d: string) {
    match kind
    case Begins => e.Began? && e.database == d
    case Commits => e.Committed? && e.database == d
    case Rollbacks => e.RolledBack? && e.database == d
  }

  function Count(trace: seq<Event>, kind: Kind, d: string): nat {
    if trace == [] then 0 else (if Is(trace[0], kind, d) then 1 else 0) + Count(trace[1..], kind, d)
  }

  lemma {:induction false} CountConcat(a: seq<Event>, b: seq<Event>, kind: Kind, d: string)
    ensures Count(a + b, kind, d) == Count(a, kind, d) + Count(b, kind, d)
  {
    if a == [] {
      assert a + b == b;
    } else {
      assert (a + b)[1..] == a[1..] + b;
      CountConcat(a[1..], b, kind, d);
    }
  }

  lemma {:induction false} CountFlushed(callbacks: seq<Callback>, kind: Kind, d: string)
    ensures Count(Flushed(callbacks), kind, d) == 0
  {
    if callbacks != [] {
      assert Flushed(callbacks)[1..] == Flushed(callbacks[1..]);
      CountFlushed(callbacks[1..], kind, d);
    }
  }

  lemma CountOther(e: Event, kind: Kind, d: string)
    requires !e.Began? && !e.Committed? && !e.RolledBack?
    ensures Count([e], kind, d) == 0
  {
    assert [e][1..] == [];
  }

  lemma CountAttempt(d: string, txn: Txn, inner: seq<Event>, last: Event, kind: Kind, e: string)
    ensures Count([Began(d, txn), Entry(d, txn)] + inner + [last], kind, e)
      == (if kind.Begins? && e == d then 1 else 0) + Count(inner, kind, e) + (if Is(last, kind, e) then 1 else 0)
  {
    var start := [Began(d, txn), Entry(d, txn)];
    assert start[1..] == [Entry(d, txn)] && start[1..][1..] == [] && [last][1..] == [];
    CountConcat(start, inner, kind, e);
    CountConcat(start + inner, [last], kind, e);
  }

  // ---------------------------------------------------------------------------
  // Inside an active transaction nothing begins or ends it
  // ---------------------------------------------------------------------------

  lemma {:induction false} RunQuiet(
      cfg: Config, scope: Scope, arrays: seq<Arrays>, next: Txn, call: Call, kind: Kind, d: string)
    requires ValidScope(scope, |arrays|) && d in scope.active
    ensures Count(Run(cfg, scope, arrays, next, call).trace, kind, d) == 0
    decreases call, 3
  {
    if call.database in scope.active {
      var deeper := scope.(depth := scope.depth + 1);
      BodyQuiet(cfg, deeper, arrays, next, call.first.body, kind, d);
      var r := Body(cfg, deeper, arrays, next, call.first.body);
      CountConcat([Joined(call.database)] + r.trace, [Left(call.database)], kind, d);
      CountConcat([Joined(call.database)], r.trace, kind, d);
      CountOther(Joined(call.database), kind, d);
      CountOther(Left(call.database), kind, d);
    } else if call.database in cfg.drivers {
      var id := |arrays|;
      RetryQuiet(cfg, scope, arrays + [Arrays([], [])], next, call, 1, id, kind, d);
      var r := Retry(cfg, scope, arrays + [Arrays([], [])], next, call, 1, id);
      CountConcat(r.trace, Flushed(r.arrays[id].commit), kind, d);
      CountFlushed(r.arrays[id].commit, kind, d);
    }
  }

  lemma {:induction false} RetryQuiet(
      cfg: Config, scope: Scope, arrays: seq<Arrays>, next: Txn,
      call: Call, attempt: nat, id: RunId, kind: Kind, d: string)
    requires Owns(scope, |arrays|, call.database, id) && d in scope.active
    requires call.database in cfg.drivers && 1 <= attempt <= call.retries + 1
    ensures Count(Retry(cfg, scope, arrays, next, call, attempt, id).trace, kind, d) == 0
    decreases call, 2, call.retries + 1 - attempt
  {
    var empty := arrays[id := Arrays([], [])];
    ExecuteQuiet(cfg, scope, empty, next, call, attempt, id, kind, d);
    var r := Execute(cfg, scope, empty, next, call, attempt, id);
    if r.outcome.Raised? {
      var undo := r.arrays[id].rollback;
      CountConcat(r.trace, Flushed(undo), kind, d);
      CountFlushed(undo, kind, d);
      if FirstFailure(undo).None? && attempt < call.retries + 1 && cfg.retriable(r.outcome.error) {
        RetryQuiet(cfg, scope, r.arrays, r.next, call, attempt + 1, id, kind, d);
        CountConcat(r.trace + Flushed(undo),
                    Retry(cfg, scope, r.arrays, r.next, call, attempt + 1, id).trace, kind, d);
      }
    }
  }

  lemma {:induction false} ExecuteQuiet(
      cfg: Config, scope: Scope, arrays: seq<Arrays>, next: Txn,
      call: Call, attempt: nat, id: RunId, kind: Kind, d: string)
    requires Owns(scope, |arrays|, call.database, id) && d in scope.active
    requires call.database in cfg.drivers && attempt >= 1
    ensures Count(Execute(cfg, scope, arrays, next, call, attempt, id).trace, kind, d) == 0
    decreases call, 1
  {
    var e, a := call.database, call.AttemptAt(attempt);
    if !cfg.drivers[e].NoTransactions? && a.beginError.None? {
      var inside := Inside(scope, e, next, id);
      if a.entryError.None? { BodyQuiet(cfg, inside, arrays, next + 1, a.body, kind, d); }
      var inner := Invoke(cfg, inside, arrays, next + 1, a).trace;
      CountAttempt(e, next, inner, Event.Committed(e, next), kind, d);
      CountAttempt(e, next, inner, RolledBack(e, next), kind, d);
    }
  }

  lemma {:induction false} BodyQuiet(
      cfg: Config, scope: Scope, arrays: seq<Arrays>, next: Txn, ops: seq<Op>, kind: Kind, d: string)
    requires ValidScope(scope, |arrays|) && d in scope.active
    ensures Count(Body(cfg, scope, arrays, next, ops).trace, kind, d) == 0
    decreases ops, 4
  {
    if ops != [] {
      PerformQuiet(cfg, scope, arrays, next, ops[0], kind, d);
      var one := Perform(cfg, scope, arrays, next, ops[0]);
      if one.outcome.Returned? {
        BodyQuiet(cfg, scope, one.arrays, one.next, ops[1..], kind, d);
        CountConcat(one.trace, Body(cfg, scope, one.arrays, one.next, ops[1..]).trace, kind, d);
      }
    }
  }

  lemma {:induction false} PerformQuiet(
      cfg: Config, scope: Scope, arrays: seq<Arrays>, next: Txn, op: Op, kind: Kind, d: string)
    requires ValidScope(scope, |arrays|) && d in scope.active
    ensures Count(Perform(cfg, scope, arrays, next, op).trace, kind, d) == 0
    decreases op, 4
  {
    match op
    case Nested(call, caught) => RunQuiet(cfg, scope, arrays, next, call, kind, d);
    case _ =>
  }

  // ---------------------------------------------------------------------------
  // An outermost run
  // ---------------------------------------------------------------------------

  /** One attempt begins at most once, and ends what it began: by COMMIT exactly when it returned. */
  lemma ExecuteCounts(
      cfg: Config, scope: Scope, arrays: seq<Arrays>, next: Txn, call: Call, attempt: nat, id: RunId)
    requires Owns(scope, |arrays|, call.database, id)
    requires call.database in cfg.drivers && attempt >= 1
    ensures var r := Execute(cfg, scope, arrays, next, call, attempt, id); var d := call.database;
      && Count(r.trace, Begins, d) <= 1
      && Count(r.trace, Commits, d) == (if r.outcome.Returned? then 1 else 0)
      && Count(r.trace, Begins, d) == Count(r.trace, Commits, d) + Count(r.trace, Rollbacks, d)
  {
    var d, a := call.database, call.AttemptAt(attempt);
    if !cfg.drivers[d].NoTransactions? && a.beginError.None? {
      var inside := Inside(scope, d, next, id);
      var inner := Invoke(cfg, inside, arrays, next + 1, a).trace;
      forall kind ensures Count(inner, kind, d) == 0 {
        if a.entryError.None? { BodyQuiet(cfg, inside, arrays, next + 1, a.body, kind, d); }
      }
      forall kind, last: Event
        ensures Count([Began(d, next), Entry(d, next)] + inner + [last], kind, d)
          == (if kind.Begins? then 1 else 0) + (if Is(last, kind, d) then 1 else 0)
      {
        CountAttempt(d, next, inner, last, kind, d);
      }
    }
  }

  lemma {:induction false} RetryCounts(
      cfg: Config, scope: Scope, arrays: seq<Arrays>, next: Txn, call: Call, attempt: nat, id: RunId)
    requires Owns(scope, |arrays|, call.database, id)
    requires call.database in cfg.drivers && 1 <= attempt <= call.retries + 1
    ensures var r := Retry(cfg, scope, arrays, next, call, attempt, id); var d := call.database;
      && Count(r.trace, Begins, d) <= call.retries + 2 - attempt
      && Count(r.trace, Commits, d) == (if r.outcome.Returned? then 1 else 0)
      && Count(r.trace, Begins, d) == Count(r.trace, Commits, d) + Count(r.trace, Rollbacks, d)
    decreases call.retries + 1 - attempt
  {
    var d := call.database;
    var empty := arrays[id := Arrays([], [])];
    ExecuteCounts(cfg, scope, empty, next, call, attempt, id);
    var r := Execute(cfg, scope, empty, next, call, attempt, id);
    var whole := Retry(cfg, scope, arrays, next, call, attempt, id);
    if r.outcome.Returned? {
      assert whole == r;
    } else {
      var undo := r.arrays[id].rollback;
      forall kind ensures Count(r.trace + Flushed(undo), kind, d) == Count(r.trace, kind, d) {
        CountConcat(r.trace, Flushed(undo), kind, d);
        CountFlushed(undo, kind, d);
      }
      if FirstFailure(undo).None? && attempt < call.retries + 1 && cfg.retriable(r.outcome.error) {
        RetryCounts(cfg, scope, r.arrays, r.next, call, attempt + 1, id);
        var again := Retry(cfg, scope, r.arrays, r.next, call, attempt + 1, id);
        assert whole == Then(r.trace + Flushed(undo), again);
        forall kind ensures Count(whole.trace, kind, d) == Count(r.trace, kind, d) + Count(again.trace, kind, d) {
          CountConcat(r.trace + Flushed(undo), again.trace, kind, d);
        }
      } else {
        assert whole == Effect(r.trace + Flushed(undo), r.arrays, r.next, Raises(FirstFailure(undo), r.outcome));
      }
    }
  }

  /** No attempt fails before it has begun. */
  ghost predicate AlwaysBegins(cfg: Config, call: Call) {
    && call.database in cfg.drivers && !cfg.drivers[call.database].NoTransactions?
    && forall i :: i >= 1 ==> call.AttemptAt(i).beginError.None?
  }

  lemma ExecuteBegins(
      cfg: Config, scope: Scope, arrays: seq<Arrays>, next: Txn, call: Call, attempt: nat, id: RunId)
    requires Owns(scope, |arrays|, call.database, id) && AlwaysBegins(cfg, call) && attempt >= 1
    ensures Count(Execute(cfg, scope, arrays, next, call, attempt, id).trace, Begins, call.database) == 1
  {
    hide Count;
    ExecuteCounts(cfg, scope, arrays, next, call, attempt, id);
    var d, a := call.database, call.AttemptAt(attempt);
    assert a.beginError.None?;
    var inside := Inside(scope, d, next, id);
    var inner := Invoke(cfg, inside, arrays, next + 1, a).trace;
    CountAttempt(d, next, inner, Event.Committed(d, next), Begins, d);
    CountAttempt(d, next, inner, RolledBack(d, next), Begins, d);
  }

  /**
    A run gives up early only on an error that is not worth another attempt, or when a rollback
    callback throws: raising a retriable error otherwise takes all the attempts there are.
   */
  lemma {:induction false} RetryPersists(
      cfg: Config, scope: Scope, arrays: seq<Arrays>, next: Txn, call: Call, attempt: nat, id: RunId)
    requires Owns(scope, |arrays|, call.database, id) && call.database in cfg.drivers && AlwaysBegins(cfg, call)
    requires 1 <= attempt <= call.retries + 1
    ensures var r := Retry(cfg, scope, arrays, next, call, attempt, id);
      r.outcome.Raised? && cfg.retriable(r.outcome.error) && FirstFailure(r.arrays[id].rollback).None? ==>
        Count(r.trace, Begins, call.database) == call.retries + 2 - attempt
    decreases call.retries + 1 - attempt
  {
    hide Count, AlwaysBegins, FirstFailure;
    var d := call.database;
    var empty := arrays[id := Arrays([], [])];
    ExecuteBegins(cfg, scope, empty, next, call, attempt, id);
    var r := Execute(cfg, scope, empty, next, call, attempt, id);
    if r.outcome.Raised? {
      var undo := r.arrays[id].rollback;
      CountConcat(r.trace, Flushed(undo), Begins, d);
      CountFlushed(undo, Begins, d);
      if FirstFailure(undo).None? && attempt < call.retries + 1 && cfg.retriable(r.outcome.error) {
        RetryPersists(cfg, scope, r.arrays, r.next, call, attempt + 1, id);
        var again := Retry(cfg, scope, r.arrays, r.next, call, attempt + 1, id);
        CountConcat(r.trace + Flushed(undo), again.trace, Begins, d);
      }
    }
  }

  /**
    Over the whole trace of an outermost run, nested runs included: at most retries + 1
    BEGINs, every one of them ended, at most one COMMIT, and that one exactly when the run
    returns or only a commit callback failed.
   */
  lemma OutermostCounts(cfg: Config, scope: Scope, arrays: seq<Arrays>, next: Txn, call: Call)
    requires ValidScope(scope, |arrays|) && call.database !in scope.active && call.database in cfg.drivers
    ensures var r := Run(cfg, scope, arrays, next, call); var d := call.database;
      && Count(r.trace, Begins, d) <= call.retries + 1
      && Count(r.trace, Begins, d) == Count(r.trace, Commits, d) + Count(r.trace, Rollbacks, d)
      && Count(r.trace, Commits, d) <= 1
      && (r.outcome.Returned? ==> Count(r.trace, Commits, d) == 1)
      && (Count(r.trace, Commits, d) == 1 ==>
          r.outcome == Raises(FirstFailure(r.arrays[|arrays|].commit), Returned))
  {
    var d, id := call.database, |arrays|;
    RetryCounts(cfg, scope, arrays + [Arrays([], [])], next, call, 1, id);
    var r := Retry(cfg, scope, arrays + [Arrays([], [])], next, call, 1, id);
    forall kind
      ensures Count(r.trace + Flushed(r.arrays[id].commit), kind, d) == Count(r.trace, kind, d)
    {
      CountConcat(r.trace, Flushed(r.arrays[id].commit), kind, d);
      CountFlushed(r.arrays[id].commit, kind, d);
    }
  }
}
