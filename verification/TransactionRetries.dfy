/** When a run tries again and when it stops, what it raises, and what its operations show. */
module TransactionRetries {
  import opened Base
  import opened Text
  import opened TransactionTree
  import TransactionCounts
  import TransactionService

  // ---------------------------------------------------------------------------
  // Errors
  // ---------------------------------------------------------------------------

  ghost predicate AllReturn(callbacks: seq<Callback>) { forall i :: 0 <= i < |callbacks| ==> callbacks[i].error.None? }

  /** The first of the callbacks that throw throws this. */
  ghost predicate ThrowsFirst(callbacks: seq<Callback>, error: Error) {
    exists i :: 0 <= i < |callbacks| && callbacks[i].error == Some(error) && AllReturn(callbacks[..i])
  }

  lemma {:induction false} FirstFailures(callbacks: seq<Callback>)
    ensures FirstFailure(callbacks).None? <==> AllReturn(callbacks)
    ensures forall e :: FirstFailure(callbacks) == Some(e) <==> ThrowsFirst(callbacks, e)
  {
    if callbacks != [] {
      FirstFailures(callbacks[1..]);
      var rest := callbacks[1..];
      if callbacks[0].error.None? {
        assert AllReturn(callbacks) <==> AllReturn(rest) by {
          if AllReturn(rest) { assert forall i :: 0 < i < |callbacks| ==> callbacks[i] == rest[i - 1]; }
        }
        forall e ensures ThrowsFirst(callbacks, e) <==> ThrowsFirst(rest, e) { ThrowsLater(callbacks, e); }
      } else {
        forall e ensures callbacks[0].error == Some(e) <==> ThrowsFirst(callbacks, e) { ThrowsAtOnce(callbacks, e); }
      }
    }
  }

  lemma AllReturnCons(c: Callback, rest: seq<Callback>)
    ensures AllReturn([c] + rest) <==> c.error.None? && AllReturn(rest)
  {
    var all := [c] + rest;
    assert all[0] == c && forall i :: 0 <= i < |rest| ==> all[i + 1] == rest[i];
    if AllReturn(all) { forall i | 0 <= i < |rest| ensures rest[i].error.None? { assert all[i + 1].error.None?; } }
  }

  lemma ThrowsLater(callbacks: seq<Callback>, e: Error)
    requires callbacks != [] && callbacks[0].error.None?
    ensures ThrowsFirst(callbacks, e) <==> ThrowsFirst(callbacks[1..], e)
  {
    var rest := callbacks[1..];
    if i :| 0 <= i < |callbacks| && callbacks[i].error == Some(e) && AllReturn(callbacks[..i]) {
      assert rest[i - 1] == callbacks[i] && callbacks[..i] == [callbacks[0]] + rest[..i - 1];
      AllReturnCons(callbacks[0], rest[..i - 1]);
    }
    if i :| 0 <= i < |rest| && rest[i].error == Some(e) && AllReturn(rest[..i]) {
      assert callbacks[i + 1] == rest[i] && callbacks[..i + 1] == [callbacks[0]] + rest[..i];
      AllReturnCons(callbacks[0], rest[..i]);
    }
  }

  lemma ThrowsAtOnce(callbacks: seq<Callback>, e: Error)
    requires callbacks != [] && callbacks[0].error.Some?
    ensures callbacks[0].error == Some(e) <==> ThrowsFirst(callbacks, e)
  {
    assert AllReturn(callbacks[..0]);
    if i :| 0 <= i < |callbacks| && callbacks[i].error == Some(e) && AllReturn(callbacks[..i]) {
      if i > 0 { assert callbacks[..i][0] == callbacks[0]; }
    }
  }

  /** The text holds the part, in any case. */
  ghost predicate Mentions(text: string, part: string) {
    exists before, middle, after :: Around(text, before, middle, after) && Lower(middle) == part
  }

  predicate Around(text: string, before: string, middle: string, after: string) { text == before + middle + after }

  lemma {:induction false} ContainsAround(s: string, part: string)
    ensures Contains(s, part) <==> exists before, after :: Around(s, before, part, after)
  {
    if part <= s {
      assert Around(s, "", part, s[|part|..]);
    } else if s != "" {
      ContainsAround(s[1..], part);
      if before, after :| Around(s[1..], before, part, after) { assert Around(s, [s[0]] + before, part, after); }
      if before, after :| Around(s, before, part, after) {
        if before == "" { AroundStart(s, part, after); }
        assert Around(s[1..], before[1..], part, after);
      }
    }
  }

  lemma AroundStart(s: string, part: string, after: string)
    requires Around(s, "", part, after)
    ensures part <= s
  {
    assert s[..|part|] == part;
  }

  lemma ContainsIsMention(text: string, part: string)
    ensures Contains(Lower(text), part) <==> Mentions(text, part)
  {
    var s := Lower(text);
    ContainsAround(s, part);
    if before, after :| Around(s, before, part, after) {
      var i, j := |before|, |before| + |part|;
      assert Around(text, text[..i], text[i..j], text[j..]);
      assert Lower(text[i..j]) == s[i..j] == part;
    }
    if before, middle, after :| Around(text, before, middle, after) && Lower(middle) == part {
      assert s == Lower(before) + part + Lower(after);
      assert Around(s, Lower(before), part, Lower(after));
    }
  }

  /** Which errors are worth another attempt: five phrases in the message, or four codes, in any case. */
  lemma RetriableErrors(e: Error)
    ensures TransactionService.IsRetriable(e) <==>
      || Mentions(e.message, "deadlock") || Mentions(e.message, "lock timeout")
      || Mentions(e.message, "serialization failure") || Mentions(e.message, "could not serialize")
      || Mentions(e.message, "database is locked")
      || Lower(e.code) in {"40p01", "40001", "1213", "1205"}
  {
    hide Contains, Mentions, Lower;
    ContainsIsMention(e.message, "deadlock");
    ContainsIsMention(e.message, "lock timeout");
    ContainsIsMention(e.message, "serialization failure");
    ContainsIsMention(e.message, "could not serialize");
    ContainsIsMention(e.message, "database is locked");
  }

  // ---------------------------------------------------------------------------
  // Attempts
  // ---------------------------------------------------------------------------

  /** What attempt `k` does if there is one, whatever became of those before it. */
  function Nth(cfg: Config, scope: Scope, arrays: seq<Arrays>, next: Txn, call: Call, id: RunId, k: nat): (r: Effect)
    requires Owns(scope, |arrays|, call.database, id) && call.database in cfg.drivers && k >= 1
    ensures |r.arrays| >= |arrays|
    decreases k
  {
    if k == 1 then Execute(cfg, scope, arrays[id := Arrays([], [])], next, call, 1, id)
    else
      var before := Nth(cfg, scope, arrays, next, call, id, k - 1);
      Execute(cfg, scope, before.arrays[id := Arrays([], [])], before.next, call, k, id)
  }

  /** The attempts before attempt `k`, each with its rollback callbacks. */
  function Until(cfg: Config, scope: Scope, arrays: seq<Arrays>, next: Txn, call: Call, id: RunId, k: nat):
      (trace: seq<Event>)
    requires Owns(scope, |arrays|, call.database, id) && call.database in cfg.drivers && k >= 1
    decreases k
  {
    if k == 1 then []
    else
      var before := Nth(cfg, scope, arrays, next, call, id, k - 1);
      Until(cfg, scope, arrays, next, call, id, k - 1) + (before.trace + Flushed(before.arrays[id].rollback))
  }

  /** After attempt `k` there is another one. */
  ghost predicate TriesAgain(cfg: Config, call: Call, r: Effect, id: RunId, k: nat)
    requires id < |r.arrays|
  {
    r.outcome.Raised? && cfg.retriable(r.outcome.error) && AllReturn(r.arrays[id].rollback) && k <= call.retries
  }

  /** What a run raises after its last attempt: the first error of a rollback callback, or the attempt's own. */
  ghost predicate EndsAs(last: Outcome, rollback: seq<Callback>, outcome: Outcome) {
    if last.Returned? then outcome == Returned
    else if AllReturn(rollback) then outcome == last
    else outcome.Raised? && ThrowsFirst(rollback, outcome.error)
  }

  /** The run makes attempts 1 to `k` and no more. */
  ghost predicate StopsAt(
      cfg: Config, scope: Scope, arrays: seq<Arrays>, next: Txn, call: Call, id: RunId, k: nat, r: Effect)
    requires Owns(scope, |arrays|, call.database, id) && call.database in cfg.drivers && k >= 1
  {
    var last := Nth(cfg, scope, arrays, next, call, id, k);
    && (forall i :: 1 <= i < k ==> TriesAgain(cfg, call, Nth(cfg, scope, arrays, next, call, id, i), id, i))
    && !TriesAgain(cfg, call, last, id, k)
    && r.trace == Until(cfg, scope, arrays, next, call, id, k)
      + (last.trace + if last.outcome.Returned? then [] else Flushed(last.arrays[id].rollback))
    && EndsAs(last.outcome, last.arrays[id].rollback, r.outcome)
    && r.arrays == last.arrays && r.next == last.next
  }

  /** The state that attempt `k` starts from. */
  function From(cfg: Config, scope: Scope, arrays: seq<Arrays>, next: Txn, call: Call, id: RunId, k: nat):
      (start: (seq<Arrays>, Txn))
    requires Owns(scope, |arrays|, call.database, id) && call.database in cfg.drivers && k >= 1
    ensures |start.0| >= |arrays|
  {
    if k == 1 then (arrays, next)
    else var before := Nth(cfg, scope, arrays, next, call, id, k - 1); (before.arrays, before.next)
  }

  lemma {:induction false} Climb(
      cfg: Config, scope: Scope, arrays: seq<Arrays>, next: Txn, call: Call, id: RunId, k: nat) returns (stop: nat)
    requires Owns(scope, |arrays|, call.database, id) && call.database in cfg.drivers && 1 <= k <= call.retries + 1
    requires forall i :: 1 <= i < k ==> TriesAgain(cfg, call, Nth(cfg, scope, arrays, next, call, id, i), id, i)
    ensures var start := From(cfg, scope, arrays, next, call, id, k);
      var r := Then(Until(cfg, scope, arrays, next, call, id, k),
                    Retry(cfg, scope, start.0, start.1, call, k, id));
      k <= stop <= call.retries + 1 && StopsAt(cfg, scope, arrays, next, call, id, stop, r)
    decreases call.retries + 1 - k
  {
    hide Execute, FirstFailure, AllReturn, ThrowsFirst;
    var start, r := From(cfg, scope, arrays, next, call, id, k), Nth(cfg, scope, arrays, next, call, id, k);
    var undo := r.arrays[id].rollback;
    FirstFailures(undo);
    if TriesAgain(cfg, call, r, id, k) {
      stop := Climb(cfg, scope, arrays, next, call, id, k + 1);
      ThenThen(Until(cfg, scope, arrays, next, call, id, k), r.trace + Flushed(undo),
               Retry(cfg, scope, r.arrays, r.next, call, k + 1, id));
    } else {
      stop := k;
      assert r.trace + [] == r.trace;
    }
  }

  /**
    A run tries again exactly after an attempt that raised an error worth it, none of whose
    rollback callbacks threw, while attempts are left. When it stops, nothing follows but the
    rollback callbacks of its last attempt, and it raises the first error that one of them threw,
    or else the error of that attempt.
   */
  lemma RetryStops(cfg: Config, scope: Scope, arrays: seq<Arrays>, next: Txn, call: Call, id: RunId)
      returns (stop: nat)
    requires Owns(scope, |arrays|, call.database, id) && call.database in cfg.drivers
    ensures 1 <= stop <= call.retries + 1
    ensures StopsAt(cfg, scope, arrays, next, call, id, stop, Retry(cfg, scope, arrays, next, call, 1, id))
  {
    hide Retry, StopsAt;
    stop := Climb(cfg, scope, arrays, next, call, id, 1);
    var r := Retry(cfg, scope, arrays, next, call, 1, id);
    assert [] + r.trace == r.trace;
  }

  /** How a run on a database that is not active ends: with its attempts, and its commit callbacks if it committed. */
  ghost predicate RunIs(attempts: Effect, id: RunId, r: Effect)
    requires id < |attempts.arrays|
  {
    var commit := attempts.arrays[id].commit;
    if attempts.outcome.Raised? then r == attempts
    else
      && r.trace == attempts.trace + Flushed(commit) && r.arrays == attempts.arrays && r.next == attempts.next
      && if AllReturn(commit) then r.outcome == Returned else r.outcome.Raised? && ThrowsFirst(commit, r.outcome.error)
  }

  /**
    The same for a whole run: after its attempts come its commit callbacks if it committed, and
    then it raises the first error that one of them threw; nothing is tried again for it.
   */
  lemma RunStops(cfg: Config, scope: Scope, arrays: seq<Arrays>, next: Txn, call: Call)
      returns (stop: nat, attempts: Effect)
    requires ValidScope(scope, |arrays|) && call.database !in scope.active && call.database in cfg.drivers
    ensures var id, wider := |arrays|, arrays + [Arrays([], [])];
      && 1 <= stop <= call.retries + 1 && id < |attempts.arrays|
      && StopsAt(cfg, scope, wider, next, call, id, stop, attempts)
      && RunIs(attempts, id, Run(cfg, scope, arrays, next, call))
  {
    hide StopsAt, FirstFailure, AllReturn, ThrowsFirst, Retry;
    var id, wider := |arrays|, arrays + [Arrays([], [])];
    stop := RetryStops(cfg, scope, wider, next, call, id);
    attempts := Retry(cfg, scope, wider, next, call, 1, id);
    FirstFailures(attempts.arrays[id].commit);
  }

  lemma {:induction false} UntilBegins(
      cfg: Config, scope: Scope, arrays: seq<Arrays>, next: Txn, call: Call, id: RunId, k: nat)
    requires Owns(scope, |arrays|, call.database, id) && call.database in cfg.drivers && k >= 1
    requires TransactionCounts.AlwaysBegins(cfg, call)
    ensures var d := call.database;
      && TransactionCounts.Count(Until(cfg, scope, arrays, next, call, id, k), TransactionCounts.Begins, d) == k - 1
      && TransactionCounts.Count(Nth(cfg, scope, arrays, next, call, id, k).trace, TransactionCounts.Begins, d) == 1
    decreases k
  {
    hide TransactionCounts.Count, TransactionCounts.AlwaysBegins, Execute;
    var d, none := call.database, Arrays([], []);
    if k == 1 {
      TransactionCounts.ExecuteBegins(cfg, scope, arrays[id := none], next, call, 1, id);
      TransactionCounts.CountFlushed([], TransactionCounts.Begins, d);
      assert Flushed([]) == [];
    } else {
      UntilBegins(cfg, scope, arrays, next, call, id, k - 1);
      var before := Nth(cfg, scope, arrays, next, call, id, k - 1);
      var undo := Flushed(before.arrays[id].rollback);
      TransactionCounts.ExecuteBegins(cfg, scope, before.arrays[id := none], before.next, call, k, id);
      TransactionCounts.CountFlushed(before.arrays[id].rollback, TransactionCounts.Begins, d);
      TransactionCounts.CountConcat(before.trace, undo, TransactionCounts.Begins, d);
      TransactionCounts.CountConcat(
        Until(cfg, scope, arrays, next, call, id, k - 1), before.trace + undo, TransactionCounts.Begins, d);
    }
  }

  /** In the whole trace there are as many BEGINs of the database as attempts up to the one that stops the run. */
  lemma BeginsAreAttempts(cfg: Config, scope: Scope, arrays: seq<Arrays>, next: Txn, call: Call)
      returns (stop: nat, attempts: Effect)
    requires ValidScope(scope, |arrays|) && call.database !in scope.active && call.database in cfg.drivers
    requires TransactionCounts.AlwaysBegins(cfg, call)
    ensures var id, wider, r := |arrays|, arrays + [Arrays([], [])], Run(cfg, scope, arrays, next, call);
      && stop >= 1 && StopsAt(cfg, scope, wider, next, call, id, stop, attempts)
      && TransactionCounts.Count(r.trace, TransactionCounts.Begins, call.database) == stop
  {
    hide TransactionCounts.Count, Run, Nth, Until, TransactionCounts.AlwaysBegins, EndsAs, TriesAgain;
    var d, id, wider := call.database, |arrays|, arrays + [Arrays([], [])];
    stop, attempts := RunStops(cfg, scope, arrays, next, call);
    UntilBegins(cfg, scope, wider, next, call, id, stop);
    var last := Nth(cfg, scope, wider, next, call, id, stop);
    var before, tail := Until(cfg, scope, wider, next, call, id, stop), Flushed(last.arrays[id].rollback);
    TransactionCounts.CountFlushed(last.arrays[id].rollback, TransactionCounts.Begins, d);
    TransactionCounts.CountConcat(last.trace, tail, TransactionCounts.Begins, d);
    TransactionCounts.CountConcat(before, last.trace + tail, TransactionCounts.Begins, d);
    TransactionCounts.CountConcat(before, last.trace, TransactionCounts.Begins, d);
    assert last.trace + [] == last.trace;
    TransactionCounts.CountConcat(attempts.trace, Flushed(attempts.arrays[id].commit), TransactionCounts.Begins, d);
    TransactionCounts.CountFlushed(attempts.arrays[id].commit, TransactionCounts.Begins, d);
  }

  lemma UnknownDatabase(cfg: Config, scope: Scope, arrays: seq<Arrays>, next: Txn, call: Call)
    requires ValidScope(scope, |arrays|) && call.database !in scope.active && call.database !in cfg.drivers
    ensures Run(cfg, scope, arrays, next, call) == Effect([], arrays, next, Raised(Error("not found", "")))
  {}

  /** The first error that occurs, in the order in which things happen. */
  function FirstError(errors: seq<Option<Error>>): Outcome {
    if errors == [] then Returned
    else if errors[0].Some? then Raised(errors[0].value)
    else FirstError(errors[1..])
  }

  function ErrorOf(outcome: Outcome): Option<Error> { match outcome case Returned => None case Raised(e) => Some(e) }

  /**
    An attempt begins unless the driver has no transactions or BEGIN fails; the entry hook, the
    body and COMMIT follow as far as nothing fails, and the first failure is what it raises.
   */
  lemma AttemptMeans(cfg: Config, scope: Scope, arrays: seq<Arrays>, next: Txn, call: Call, attempt: nat, id: RunId)
    requires Owns(scope, |arrays|, call.database, id) && call.database in cfg.drivers && attempt >= 1
    ensures var r, a, d := Execute(cfg, scope, arrays, next, call, attempt, id), call.AttemptAt(attempt), call.database;
      var inside := Scope(scope.active[d := Slot(next, id)], scope.depth + 1);
      var unsupported := if cfg.drivers[d] == NoTransactions
        then Some(Error("Database does not support transactions", "")) else None;
      var body := Body(cfg, inside, arrays, next + 1, a.body);
      var entered := if a.entryError.Some? then [] else body.trace;
      && r.outcome == FirstError([unsupported, a.beginError, a.entryError, ErrorOf(body.outcome), a.commitError])
      && var end := if r.outcome.Returned? then Event.Committed(d, next) else RolledBack(d, next);
        var begins := unsupported.None? && a.beginError.None?;
        r.trace == if begins then [Began(d, next), Entry(d, next)] + entered + [end] else []
  {
    hide Body, FirstError;
    var a, d := call.AttemptAt(attempt), call.database;
    var unsupported := if cfg.drivers[d] == NoTransactions
      then Some(Error("Database does not support transactions", "")) else None;
    var body := Body(cfg, Inside(scope, d, next, id), arrays, next + 1, a.body);
    FirstOfFive(unsupported, a.beginError, a.entryError, ErrorOf(body.outcome), a.commitError);
  }

  lemma FirstOfFive(a: Option<Error>, b: Option<Error>, c: Option<Error>, d: Option<Error>, e: Option<Error>)
    ensures FirstError([a, b, c, d, e]) ==
      if a.Some? then Raised(a.value) else if b.Some? then Raised(b.value) else if c.Some? then Raised(c.value)
      else if d.Some? then Raised(d.value) else if e.Some? then Raised(e.value) else Returned
  {
    var all := [a, b, c, d, e];
    assert all[1..] == [b, c, d, e] && all[1..][1..] == [c, d, e] && all[1..][1..][1..] == [d, e];
    assert [d, e][1..] == [e] && FirstError([e]) == if e.Some? then Raised(e.value) else Returned;
    assert FirstError([d, e]) == if d.Some? then Raised(d.value) else FirstError([e]);
    assert FirstError([c, d, e]) == if c.Some? then Raised(c.value) else FirstError([d, e]);
    assert FirstError([b, c, d, e]) == if b.Some? then Raised(b.value) else FirstError([c, d, e]);
  }

  // ---------------------------------------------------------------------------
  // Operations
  // ---------------------------------------------------------------------------

  /** What an operation of a body shows, and what it raises. */
  ghost predicate Shows(cfg: Config, scope: Scope, arrays: seq<Arrays>, next: Txn, op: Op, r: Effect)
    requires ValidScope(scope, |arrays|)
  {
    match op
    case Access(d) =>
      r.outcome == Returned
      && r.trace == [Accessed(d, if d in scope.active then Some(scope.active[d].txn) else None)]
    case ReadDepth => r.outcome == Returned && r.trace == [SawDepth(scope.depth)]
    case AfterCommit(d, callback) =>
      if d in scope.active then r.outcome == Returned && r.trace == [Hooked(OnCommit, d, callback)]
      else
        && r.trace == [Immediate(d, callback)]
        && r.outcome == (match callback.error case None => Returned case Some(e) => Raised(e))
    case AfterRollback(d, callback) =>
      r.outcome == Returned && r.trace == if d in scope.active then [Hooked(OnRollback, d, callback)] else []
    case Nested(call, caught) =>
      var inner := Run(cfg, scope, arrays, next, call);
      r.trace == inner.trace && r.outcome == if caught then Returned else inner.outcome
    case Throw(error) => r.outcome == Raised(error) && r.trace == []
  }

  lemma OperationShows(cfg: Config, scope: Scope, arrays: seq<Arrays>, next: Txn, op: Op)
    requires ValidScope(scope, |arrays|)
    ensures Shows(cfg, scope, arrays, next, op, Perform(cfg, scope, arrays, next, op))
  {
    hide Run;
  }

  /** A body performs its operations one after another up to the first that raises; `done` are those that return. */
  lemma {:induction false} BodyStops(cfg: Config, scope: Scope, arrays: seq<Arrays>, next: Txn, ops: seq<Op>)
      returns (done: nat)
    requires ValidScope(scope, |arrays|)
    ensures done <= |ops|
    ensures var r, before := Body(cfg, scope, arrays, next, ops), Body(cfg, scope, arrays, next, ops[..done]);
      && before.outcome == Returned
      && if done == |ops| then r == before
         else
           var one := Perform(cfg, scope, before.arrays, before.next, ops[done]);
           one.outcome.Raised? && r == Then(before.trace, one)
    decreases |ops|
  {
    hide Perform;
    done := 0;
    assert ops[..0] == [];
    if ops != [] {
      var one := Perform(cfg, scope, arrays, next, ops[0]);
      if one.outcome.Returned? {
        done := BodyStops(cfg, scope, one.arrays, one.next, ops[1..]);
        done := done + 1;
        assert ops[..done][1..] == ops[1..][..done - 1];
        var front := Body(cfg, scope, one.arrays, one.next, ops[1..][..done - 1]);
        if done < |ops| {
          ThenThen(one.trace, front.trace, Perform(cfg, scope, front.arrays, front.next, ops[done]));
        } else {
          assert ops[..done] == ops;
        }
      }
    }
  }
}
