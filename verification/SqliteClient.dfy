/**
  executeAsyncSqliteTransaction as code that updates one client's state. Each method is
  the code between two awaits; its contract ties the new state to the machine of
  SqliteQueue and says what it did to the lock, as a queue of callers over a database.
 */
module SqliteClient {
  import opened Base
  import opened SqliteQueue

  /** The queue and the database across BEGIN. */
  lemma AtBegin(s: State, c: CallId, works: bool, retriable: bool)
    requires Inv(s) && Enabled(s, Step.Begin(c, works, retriable))
    ensures var s' := Next(s, Step.Begin(c, works, retriable));
      && Inv(s')
      && Abs(s).queue != [] && Abs(s).queue[0] == c && s.working.None? && s'.committed == s.committed
      && Abs(s').queue == (if works then Abs(s).queue else Abs(s).queue[1..])
      && (works ==> s'.working == Some(s.committed))
  {
    StepKeepsInv(s, Step.Begin(c, works, retriable));
    BeginAtHead(s, c);
    assert Holds(s, c);
  }

  /** The queue and the database across COMMIT or ROLLBACK. */
  lemma AtFinish(s: State, c: CallId, outcome: Outcome, retriable: bool)
    requires Inv(s) && Enabled(s, Step.Finish(c, outcome, retriable))
    ensures var s' := Next(s, Step.Finish(c, outcome, retriable));
      && Inv(s')
      && Abs(s).queue != [] && Abs(s).queue[0] == c && Abs(s').queue == Abs(s).queue[1..]
      && Some(s'.committed) == (if outcome == Returned(true) then s.working else Some(s.committed))
      && s'.working.None?
  {
    StepKeepsInv(s, Step.Finish(c, outcome, retriable));
    assert Holds(s, c);
  }

  class Client {
    var calls: map<CallId, Call>
    var entry: Option<Ticket>     // SQLITE_TRANSACTIONS.get(client)
    var promises: Ticket          // promises created so far
    var resolved: set<Ticket>
    var committed: Db
    var working: Option<Db>
    ghost var owners: seq<CallId>
    ghost var entered: seq<Ticket>
    ghost var log: seq<Entry>

    ghost function View(): State
      reads this
    {
      State(calls, entry, resolved, committed, working, owners, entered, log)
    }

    ghost predicate Valid()
      reads this
    {
      Inv(View()) && promises == |owners|
    }

    /** The callers between registering and releasing, first come first. */
    ghost function Queue(): seq<CallId>
      reads this
      requires Valid()
    {
      Abs(View()).queue
    }

    constructor (db: Db)
      ensures Valid() && View() == Init(db) && Queue() == []
    {
      calls, entry, promises, resolved := map[], None, 0, {};
      committed, working := db, None;
      owners, entered, log := [], [], [];
    }

    method Arrive(c: CallId, retries: nat)
      requires Valid() && Enabled(View(), Step.Arrive(c, retries))
      modifies this
      ensures Valid() && View() == Next(old(View()), Step.Arrive(c, retries))
      ensures Queue() == old(Queue())
    {
      StepKeepsInv(View(), Step.Arrive(c, retries));
      calls := calls[c := Call(retries, 1, Idle)];
    }

    /** Up to `await previous`: the caller joins the end of the queue. */
    method Register(c: CallId)
      requires Valid() && Enabled(View(), Step.Register(c))
      modifies this
      ensures Valid() && View() == Next(old(View()), Step.Register(c))
      ensures Queue() == old(Queue()) + [c]
    {
      StepKeepsInv(View(), Step.Register(c));
      var previous := entry;
      var pending := promises;
      promises := promises + 1;
      entry := Some(pending);
      calls := calls[c := calls[c].(phase := Queued(pending, previous))];
      owners := owners + [c];
    }

    /** `finally`: resolve our promise, and delete the map entry only if it is still ours. */
    method Release(pending: Ticket)
      modifies this`entry, this`resolved
      ensures resolved == old(resolved) + {pending}
      ensures entry == if old(entry) == Some(pending) then None else old(entry)
    {
      resolved := resolved + {pending};
      if entry == Some(pending) { entry := None; }
    }

    /** The catch block of executeWithRetries. */
    method Fail(c: CallId, retriable: bool)
      requires c in calls
      modifies this`calls
      ensures View() == AfterFailure(old(View()), c, retriable)
    {
      var call := calls[c];
      if call.attempt < call.retries + 1 && retriable {
        calls := calls[c := Call(call.retries, call.attempt + 1, Idle)];
      } else {
        calls := calls[c := call.(phase := Failed)];
      }
    }

    /** From the end of `await previous` to the body: only the first caller gets here. */
    method Begin(c: CallId, works: bool, retriable: bool)
      requires Valid() && Enabled(View(), Step.Begin(c, works, retriable))
      modifies this
      ensures Valid() && View() == Next(old(View()), Step.Begin(c, works, retriable))
      ensures old(Queue()) != [] && old(Queue()[0]) == c
      ensures Queue() == if works then old(Queue()) else old(Queue())[1..]
      ensures old(working).None? && committed == old(committed)
      ensures works ==> working == Some(committed)
    {
      hide Inv, Abs;
      AtBegin(View(), c, works, retriable);
      var pending := calls[c].phase.ticket;
      entered := entered + [pending];
      if works {
        working := Some(committed);
        calls := calls[c := calls[c].(phase := Running(pending, [], None))];
      } else {
        Release(pending);
        Fail(c, retriable);
      }
    }

    /** One statement of the body on the open transaction. */
    method Exec(c: CallId, op: Op)
      requires Valid() && Enabled(View(), Step.Exec(c, op))
      modifies this
      ensures Valid() && View() == Next(old(View()), Step.Exec(c, op))
      ensures Queue() == old(Queue()) && committed == old(committed)
    {
      StepKeepsInv(View(), Step.Exec(c, op));
      var phase := calls[c].phase;
      working := Apply(working.value, op);
      calls := calls[c := calls[c].(phase := phase.(ops := phase.ops + [op]))];
    }

    /** COMMIT or ROLLBACK and the release: the first caller leaves, and commits all it did or nothing. */
    method Finish(c: CallId, outcome: Outcome, retriable: bool)
      requires Valid() && Enabled(View(), Step.Finish(c, outcome, retriable))
      modifies this
      ensures Valid() && View() == Next(old(View()), Step.Finish(c, outcome, retriable))
      ensures old(Queue()) != [] && old(Queue()[0]) == c && Queue() == old(Queue())[1..]
      ensures Some(committed) == if outcome == Returned(true) then old(working) else Some(old(committed))
      ensures working.None?
    {
      hide Inv, Abs;
      AtFinish(View(), c, outcome, retriable);
      var phase := calls[c].phase;
      if outcome == Returned(true) {
        committed := working.value;
        log := log + [Entry(c, phase.ticket, phase.ops)];
        calls := calls[c := calls[c].(phase := Committed)];
        working := None;
        Release(phase.ticket);
      } else {
        working := None;
        Release(phase.ticket);
        Fail(c, retriable);
      }
    }
  }
}
