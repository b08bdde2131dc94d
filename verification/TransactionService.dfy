/**
  TransactionService as code: the scope kept in async-local storage is set and put back,
  the callback arrays are cleared, filled and flushed in place, attempts are a loop.
  Every method does to the state exactly what TransactionTree says the call means, and
  leaves the scope as it found it however the call ends.
 */
module TransactionService {
  import opened Base
  import opened Text
  import Tree = TransactionTree
  import opened TransactionTree

  /** Errors worth another attempt, by message or by SQLSTATE / MySQL code. */
  predicate IsRetriable(e: Error) {
    var msg := Lower(e.message);
    var code := Lower(e.code);
    || Text.Contains(msg, "deadlock")
    || Text.Contains(msg, "lock timeout")
    || Text.Contains(msg, "serialization failure")
    || Text.Contains(msg, "could not serialize")
    || Text.Contains(msg, "database is locked")
    || code == "40p01" || code == "40001" || code == "1213" || code == "1205"
  }

  lemma Assoc(a: seq<Event>, b: seq<Event>, c: seq<Event>)
    ensures (a + b) + c == a + (b + c)
  {}

  class Service {
    const cfg: Config
    var active: map<string, Slot>   // TRANSACTIONS, and whose arrays the two callback maps name
    var depth: nat                  // TRANSACTION_DEPTH
    var arrays: seq<Arrays>
    var next: Txn
    var events: seq<Event>

    constructor (drivers: map<string, Driver>)
      ensures cfg == Config(drivers, IsRetriable) && Valid()
      ensures View() == Scope(map[], 0) && arrays == [] && events == []
    {
      cfg := Config(drivers, IsRetriable);
      active, depth := map[], 0;
      arrays, next, events := [], 0, [];
    }

    /** The current scope. */
    ghost function View(): Scope
      reads this
    {
      Scope(active, depth)
    }

    ghost predicate Valid()
      reads this
    {
      ValidScope(View(), |arrays|)
    }

    /** The state is what `r` leaves when the events so far were `before`. */
    ghost predicate Shows(before: seq<Event>, r: Effect, outcome: Outcome)
      reads this
    {
      events == before + r.trace && arrays == r.arrays && next == r.next && outcome == r.outcome
    }

    method Emit(e: Event)
      modifies this`events
      ensures events == old(events) + [e]
    {
      events := events + [e];
    }

    /** flushCallbacks: all of them run; the first error is reported. */
    method FlushCallbacks(callbacks: seq<Callback>) returns (failure: Option<Error>)
      modifies this`events
      ensures events == old(events) + Flushed(callbacks)
      ensures failure == FirstFailure(callbacks)
    {
      failure := None;
      var i := 0;
      while i < |callbacks|
        invariant 0 <= i <= |callbacks|
        invariant events == old(events) + Flushed(callbacks)[..i]
        invariant FirstFailure(callbacks) == if failure.Some? then failure else FirstFailure(callbacks[i..])
      {
        Emit(Ran(callbacks[i]));
        if failure.None? { failure := callbacks[i].error; }
        assert callbacks[i..][1..] == callbacks[i + 1..];
        assert Flushed(callbacks)[..i + 1] == Flushed(callbacks)[..i] + [Ran(callbacks[i])];
        i := i + 1;
      }
      assert Flushed(callbacks)[..i] == Flushed(callbacks);
    }

    method Run(call: Call) returns (outcome: Outcome)
      requires Valid()
      modifies this
      ensures Valid() && View() == old(View())
      ensures Shows(old(events), Tree.Run(cfg, old(View()), old(arrays), old(next), call), outcome)
      decreases call, 3
    {
      hide Tree.Body, Tree.Retry, FirstFailure;
      var d := call.database;
      if d in active {
        outcome := Join(call);
        return;
      }
      if d !in cfg.drivers { return Raised(NOT_FOUND); }
      var id := |arrays|;
      arrays := arrays + [Arrays([], [])];
      outcome := ExecuteWithRetries(call, id);
      if outcome.Returned? {
        var failure := FlushCallbacks(arrays[id].commit);
        if failure.Some? { outcome := Raised(failure.value); }
      }
    }

    /** A run on a database with an open transaction: its body, one level deeper. */
    method Join(call: Call) returns (outcome: Outcome)
      requires Valid() && call.database in active
      modifies this
      ensures Valid() && View() == old(View())
      ensures Shows(old(events), Tree.Run(cfg, old(View()), old(arrays), old(next), call), outcome)
      decreases call, 2
    {
      hide Tree.Body, Tree.Retry, FirstFailure;
      var prevDepth := depth;
      depth := prevDepth + 1;
      Emit(Joined(call.database));
      outcome := Body(call.first.body);
      depth := prevDepth;
      Emit(Left(call.database));
    }

    method ExecuteWithRetries(call: Call, id: RunId) returns (outcome: Outcome)
      requires Valid() && Owns(View(), |arrays|, call.database, id) && call.database in cfg.drivers
      modifies this
      ensures Valid() && View() == old(View())
      ensures Shows(old(events), Tree.Retry(cfg, old(View()), old(arrays), old(next), call, 1, id), outcome)
      decreases call, 2
    {
      var maxAttempts := call.retries + 1;
      var attempt := 1;
      var over := false;
      outcome := Returned;
      ghost var scope, trace := View(), [];
      ghost var whole := Tree.Retry(cfg, scope, arrays, next, call, 1, id);
      while !over
        invariant Valid() && View() == scope && Owns(scope, |arrays|, call.database, id)
        invariant 1 <= attempt <= maxAttempts && events == old(events) + trace
        invariant !over ==> whole == Then(trace, Tree.Retry(cfg, scope, arrays, next, call, attempt, id))
        invariant over ==> whole == Effect(trace, arrays, next, outcome)
        decreases maxAttempts - attempt, !over
      {
        ghost var delta;
        outcome, over, delta := OneAttempt(call, attempt, id);
        if over {
          ThenThen(trace, delta, Effect([], arrays, next, outcome));
        } else {
          attempt := attempt + 1;
          ThenThen(trace, delta, Tree.Retry(cfg, scope, arrays, next, call, attempt, id));
        }
        Assoc(old(events), trace, delta);
        trace := trace + delta;
      }
    }

    /** One turn of the retry loop; `over` when its outcome is the whole run's. */
    method OneAttempt(call: Call, attempt: nat, id: RunId)
      returns (outcome: Outcome, over: bool, ghost delta: seq<Event>)
      requires Valid() && Owns(View(), |arrays|, call.database, id) && call.database in cfg.drivers
      requires 1 <= attempt <= call.retries + 1
      modifies this
      ensures Valid() && View() == old(View()) && |arrays| >= |old(arrays)|
      ensures events == old(events) + delta && (!over ==> attempt < call.retries + 1)
      ensures Tree.Retry(cfg, old(View()), old(arrays), old(next), call, attempt, id)
        == if over then Effect(delta, arrays, next, outcome)
           else Then(delta, Tree.Retry(cfg, View(), arrays, next, call, attempt + 1, id))
      decreases call, 2, 0
    {
      arrays := arrays[id := Arrays([], [])];
      ghost var r := Execute(cfg, View(), arrays, next, call, attempt, id);
      outcome := ExecuteTransaction(call, attempt, id);
      if outcome.Returned? {
        return outcome, true, r.trace;
      }
      var failure := FlushCallbacks(arrays[id].rollback);
      delta := r.trace + Flushed(r.arrays[id].rollback);
      if failure.Some? { return Raised(failure.value), true, delta; }
      over := !(attempt < call.retries + 1 && cfg.retriable(outcome.error));
    }

    method ExecuteTransaction(call: Call, attempt: nat, id: RunId) returns (outcome: Outcome)
      requires Valid() && Owns(View(), |arrays|, call.database, id)
      requires call.database in cfg.drivers && attempt >= 1
      modifies this
      ensures Valid() && View() == old(View())
      ensures Shows(old(events), Execute(cfg, old(View()), old(arrays), old(next), call, attempt, id), outcome)
      decreases call, 1
    {
      var d, a := call.database, call.AttemptAt(attempt);
      if cfg.drivers[d].NoTransactions? { return Raised(UNSUPPORTED); }
      if a.beginError.Some? { return Raised(a.beginError.value); }
      var txn := next;
      next := next + 1;
      Emit(Began(d, txn));
      outcome := ContainerRun(d, txn, id, a);
      if outcome.Returned? && a.commitError.None? {
        Emit(Event.Committed(d, txn));
      } else {
        Emit(RolledBack(d, txn));
        if outcome.Returned? { outcome := Raised(a.commitError.value); }
      }
    }

    /** container.run: the new scope lasts as long as the entry hook and the body, however they end. */
    method ContainerRun(d: string, txn: Txn, id: RunId, a: Attempt) returns (outcome: Outcome)
      requires Valid() && Owns(View(), |arrays|, d, id)
      modifies this
      ensures Valid() && View() == old(View())
      ensures Shows(old(events) + [Entry(d, txn)],
                    Invoke(cfg, Inside(old(View()), d, txn, id), old(arrays), old(next), a), outcome)
      decreases a, 1
    {
      var prevActive, prevDepth := active, depth;
      active, depth := active[d := Slot(txn, id)], depth + 1;
      Emit(Entry(d, txn));
      if a.entryError.Some? {
        outcome := Raised(a.entryError.value);
      } else {
        outcome := Body(a.body);
      }
      active, depth := prevActive, prevDepth;
    }

    /** The body's own statements, up to the first error it does not catch. */
    method Body(ops: seq<Op>) returns (outcome: Outcome)
      requires Valid()
      modifies this
      ensures Valid() && View() == old(View())
      ensures Shows(old(events), Tree.Body(cfg, old(View()), old(arrays), old(next), ops), outcome)
      decreases ops, 4
    {
      if ops == [] { return Returned; }
      outcome := Perform(ops[0]);
      if outcome.Returned? {
        outcome := Body(ops[1..]);
      }
    }

    method Perform(op: Op) returns (outcome: Outcome)
      requires Valid()
      modifies this
      ensures Valid() && View() == old(View())
      ensures Shows(old(events), Tree.Perform(cfg, old(View()), old(arrays), old(next), op), outcome)
      decreases op, 4
    {
      match op
      case Access(d) =>
        Emit(Accessed(d, if d in active then Some(active[d].txn) else None));
        outcome := Returned;
      case ReadDepth =>
        Emit(SawDepth(depth));
        outcome := Returned;
      case AfterCommit(d, callback) =>
        if d in active {
          var id := active[d].owner;
          arrays := arrays[id := arrays[id].(commit := arrays[id].commit + [callback])];
          Emit(Hooked(OnCommit, d, callback));
          outcome := Returned;
        } else {
          Emit(Immediate(d, callback));
          outcome := Raises(callback.error, Returned);
        }
      case AfterRollback(d, callback) =>
        if d in active {
          var id := active[d].owner;
          arrays := arrays[id := arrays[id].(rollback := arrays[id].rollback + [callback])];
          Emit(Hooked(OnRollback, d, callback));
        }
        outcome := Returned;
      case Nested(call, caught) =>
        outcome := Run(call);
        if caught { outcome := Returned; }
      case Throw(error) =>
        outcome := Raised(error);
    }
  }
}
