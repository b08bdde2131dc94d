/**
  Many SQLite clients, and bodies that await calls on any of them.

  Every client is a SqliteQueue of its own. A body may open another database name with an
  inner call; it then awaits that call, wherever it queues, and one call at a time. The body of
  an inner call may run on the outer call's database again: it joins that transaction, and its
  statements are the outer call's.
 */
module SqliteClients {
  import opened Base
  import opened SqliteQueue

  type ClientId = nat

  /** The clients, and the client of each call. */
  datatype System = System(clients: map<ClientId, State>, home: map<CallId, ClientId>)

  datatype Event =
    | Comes(k: ClientId, c: CallId, retries: nat)              // a call from outside
    | Goes(step: Step)                                         // Register, Begin or Finish
    | Writes(c: CallId, op: Op, depth: nat)                    // a statement on c, by the body awaited `depth` deep
    | Nests(c: CallId, k: ClientId, d: CallId, retries: nat)   // the body of c awaits a new call
    | Resumes(c: CallId)                                       // the call it awaited has ended
  {
    function Actor(): CallId {
      match this
      case Comes(_, c, _) => c
      case Goes(step) => step.c
      case Writes(c, _, _) => c
      case Nests(c, _, _, _) => c
      case Resumes(c) => c
    }
  }

  function CallOf(y: System, c: CallId): Option<Call> {
    if c in y.home && y.home[c] in y.clients && c in y.clients[y.home[c]].calls
    then Some(y.clients[y.home[c]].calls[c]) else None
  }

  predicate Ended(y: System, c: CallId) { CallOf(y, c).Some? && CallOf(y, c).value.Finished() }

  /** The call that the body of `c` awaits, ended or not. */
  function Child(y: System, c: CallId): Option<CallId> {
    if c in y.home && y.home[c] in y.clients then ChildOf(y.clients[y.home[c]], c) else None
  }

  /** The call that is awaited `depth` deep: by the call awaited by ... by the call awaited by `c`. */
  function Inner(y: System, c: CallId, depth: nat): Option<CallId> {
    if depth == 0 then Some(c)
    else match Inner(y, c, depth - 1)
      case None => None
      case Some(d) => Child(y, d)
  }

  /** The body of `d` is at work and awaits nobody. */
  predicate AtWork(y: System, d: CallId) {
    CallOf(y, d).Some? && CallOf(y, d).value.phase.Running? && Child(y, d).None?
  }

  /** Whether client `k` can take `step`. */
  predicate Can(y: System, k: ClientId, step: Step) { k in y.clients && Enabled(y.clients[k], step) }

  /** Client `k` takes `step`; a call that arrives is at home there. */
  function Take(y: System, k: ClientId, step: Step): System
    requires Can(y, k, step)
  {
    System(y.clients[k := SqliteQueue.Next(y.clients[k], step)],
           if step.Arrive? then y.home[step.c := k] else y.home)
  }

  predicate Possible(y: System, e: Event) {
    match e
    case Comes(k, c, retries) => c !in y.home && Can(y, k, Arrive(c, retries))
    case Goes(step) =>
      && (step.Register? || step.Begin? || step.Finish?)
      && step.c in y.home && Can(y, y.home[step.c], step)
    case Writes(c, op, depth) =>
      && c in y.home && Can(y, y.home[c], Exec(c, op))
      && Inner(y, c, depth).Some? && AtWork(y, Inner(y, c, depth).value)
    case Nests(c, k, d, retries) =>
      && c in y.home && d !in y.home && Can(y, k, Arrive(d, retries)) && Can(y, y.home[c], Await(c, d))
    case Resumes(c) =>
      && c in y.home && Can(y, y.home[c], Resume(c))
      && Ended(y, y.clients[y.home[c]].calls[c].phase.child.value)
  }

  function After(y: System, e: Event): System
    requires Possible(y, e)
  {
    match e
    case Comes(k, c, retries) => Take(y, k, Arrive(c, retries))
    case Goes(step) => Take(y, y.home[step.c], step)
    case Writes(c, op, _) => Take(y, y.home[c], Exec(c, op))
    case Nests(c, k, d, retries) => Take(Take(y, k, Arrive(d, retries)), y.home[c], Await(c, d))
    case Resumes(c) => Take(y, y.home[c], Resume(c))
  }

  predicate IsHistory(y: System, events: seq<Event>)
    decreases |events|
  {
    events == [] || (Possible(y, events[0]) && IsHistory(After(y, events[0]), events[1..]))
  }

  function Finally(y: System, events: seq<Event>): System
    requires IsHistory(y, events)
    decreases |events|
  {
    if events == [] then y else Finally(After(y, events[0]), events[1..])
  }

  function Start(dbs: map<ClientId, Db>): System {
    System(map k | k in dbs :: Init(dbs[k]), map[])
  }

  // ---------------------------------------------------------------------------
  // Every client is a queue of its own
  // ---------------------------------------------------------------------------

  ghost predicate AtHome(y: System) {
    && (forall c :: c in y.home ==> y.home[c] in y.clients && c in y.clients[y.home[c]].calls)
    && (forall k, c :: k in y.clients && c in y.clients[k].calls ==> c in y.home && y.home[c] == k)
  }

  ghost predicate ChildrenAreCalls(y: System) {
    forall c :: Child(y, c).Some? ==> Child(y, c).value in y.home
  }

  ghost predicate Sound(y: System) {
    && (forall k :: k in y.clients ==> Inv(y.clients[k]))
    && AtHome(y) && ChildrenAreCalls(y)
  }

  /** A step that a client may take for a call of its own, or for a new one. */
  ghost predicate Fits(y: System, k: ClientId, step: Step) {
    && Sound(y) && Can(y, k, step)
    && (if step.Arrive? then step.c !in y.home else step.c in y.home && y.home[step.c] == k)
    && (step.Await? ==> step.d in y.home)
  }

  lemma TakeKeepsHome(y: System, k: ClientId, step: Step)
    requires Fits(y, k, step)
    ensures AtHome(Take(y, k, step))
  {
    hide Inv, SqliteQueue.Enabled, SqliteQueue.Next, ChildrenAreCalls;
    StepIsOfOneCall(y.clients[k], step);
  }

  /** Nobody else is touched. */
  lemma TakeTouchesOne(y: System, k: ClientId, step: Step, x: CallId)
    requires Fits(y, k, step) && x != step.c
    ensures var y' := Take(y, k, step);
      && (x in y'.home <==> x in y.home) && (x in y.home ==> y'.home[x] == y.home[x])
      && CallOf(y', x) == CallOf(y, x) && Child(y', x) == Child(y, x)
  {
    hide Inv, SqliteQueue.Enabled, SqliteQueue.Next, ChildrenAreCalls;
    StepIsOfOneCall(y.clients[k], step);
  }

  lemma TakeKeepsSound(y: System, k: ClientId, step: Step)
    requires Fits(y, k, step)
    ensures Sound(Take(y, k, step))
  {
    hide Inv, SqliteQueue.Enabled, SqliteQueue.Next, ChildOf;
    StepKeepsInv(y.clients[k], step);
    StepIsOfOneCall(y.clients[k], step);
    TakeKeepsHome(y, k, step);
    var y' := Take(y, k, step);
    forall c | Child(y', c).Some? ensures Child(y', c).value in y'.home {
      if c != step.c {
        TakeTouchesOne(y, k, step, c);
      } else {
        if step.Arrive? { ArrivesAlone(y.clients[k], step); }
        assert Child(y, c) == if step.Arrive? then None else ChildOf(y.clients[k], c);
      }
    }
  }

  lemma ArrivesAlone(s: State, step: Step)
    requires Enabled(s, step) && step.Arrive?
    ensures ChildOf(SqliteQueue.Next(s, step), step.c) == None
  {}

  /** The inner call arrives at its client, and its caller awaits it. */
  lemma NestIsTwoSteps(y: System, c: CallId, k: ClientId, d: CallId, retries: nat)
    requires Sound(y) && Possible(y, Nests(c, k, d, retries))
    ensures c != d && Fits(y, k, Arrive(d, retries))
    ensures Fits(Take(y, k, Arrive(d, retries)), y.home[c], Await(c, d))
  {
    hide Inv, ChildOf;
    TakeKeepsSound(y, k, Arrive(d, retries));
  }

  lemma {:induction false} EventKeepsSound(y: System, e: Event)
    requires Sound(y) && Possible(y, e)
    ensures Sound(After(y, e))
  {
    hide Inv, SqliteQueue.Enabled, SqliteQueue.Next, Sound;
    match e
    case Comes(k, c, retries) => TakeKeepsSound(y, k, Arrive(c, retries));
    case Goes(step) => TakeKeepsSound(y, y.home[step.c], step);
    case Writes(c, op, _) => TakeKeepsSound(y, y.home[c], Exec(c, op));
    case Resumes(c) => TakeKeepsSound(y, y.home[c], Resume(c));
    case Nests(c, k, d, retries) =>
      NestIsTwoSteps(y, c, k, d, retries);
      TakeKeepsSound(y, k, Arrive(d, retries));
      TakeKeepsSound(Take(y, k, Arrive(d, retries)), y.home[c], Await(c, d));
  }

  lemma StartIsSound(dbs: map<ClientId, Db>)
    ensures Sound(Start(dbs))
  {}

  // ---------------------------------------------------------------------------
  // Reachable states
  // ---------------------------------------------------------------------------

  lemma {:induction false} HistoryKeepsSound(y: System, events: seq<Event>)
    requires Sound(y) && IsHistory(y, events)
    ensures Sound(Finally(y, events))
    decreases |events|
  {
    hide Sound, Possible, After;
    if events != [] {
      EventKeepsSound(y, events[0]);
      HistoryKeepsSound(After(y, events[0]), events[1..]);
    }
  }

  lemma FirstHasTicket(y: System, k: ClientId)
    requires Sound(y) && k in y.clients && First(y.clients[k]).Some?
    ensures var h := First(y.clients[k]).value;
      h in y.home && y.home[h] == k && CallOf(y, h).Some? && CallOf(y, h).value.HasTicket()
  {
    assert Owned(y.clients[k], Head(y.clients[k]));
  }

  /** Whatever the clients do to one another, each of them has made a run of its own machine. */
  ghost predicate Reached(db: Db, s: State) {
    exists run :: SqliteQueue.IsRun(run) && run[0] == Init(db) && run[|run| - 1] == s
  }

  lemma ReachedStep(db: Db, s: State, step: Step)
    requires Reached(db, s) && Enabled(s, step)
    ensures Reached(db, SqliteQueue.Next(s, step))
  {
    hide SqliteQueue.Enabled, SqliteQueue.Next;
    var run :| SqliteQueue.IsRun(run) && run[0] == Init(db) && run[|run| - 1] == s;
    var longer := run + [SqliteQueue.Next(s, step)];
    forall i | 0 <= i < |longer| - 1 ensures Steps(longer[i], longer[i + 1]) {
      if i < |run| - 1 { assert Steps(run[i], run[i + 1]); }
    }
    assert longer[|longer| - 1] == SqliteQueue.Next(s, step);
  }

  ghost predicate AllReached(dbs: map<ClientId, Db>, y: System) {
    y.clients.Keys == dbs.Keys && forall k :: k in dbs ==> Reached(dbs[k], y.clients[k])
  }

  lemma TakeKeepsReached(dbs: map<ClientId, Db>, y: System, k: ClientId, step: Step)
    requires AllReached(dbs, y) && Can(y, k, step)
    ensures AllReached(dbs, Take(y, k, step))
  {
    hide Reached, SqliteQueue.Enabled, SqliteQueue.Next;
    ReachedStep(dbs[k], y.clients[k], step);
  }

  /** So everything proved of one client's runs holds of every client, among it that it is serialisable. */
  lemma {:induction false} ClientsAreQueues(dbs: map<ClientId, Db>, y: System, events: seq<Event>)
    requires AllReached(dbs, y) && IsHistory(y, events)
    ensures AllReached(dbs, Finally(y, events))
    decreases |events|
  {
    hide AllReached, SqliteQueue.Enabled, SqliteQueue.Next;
    if events != [] {
      var e := events[0];
      match e {
        case Comes(k, c, retries) => TakeKeepsReached(dbs, y, k, Arrive(c, retries));
        case Goes(step) => TakeKeepsReached(dbs, y, y.home[step.c], step);
        case Writes(c, op, _) => TakeKeepsReached(dbs, y, y.home[c], Exec(c, op));
        case Resumes(c) => TakeKeepsReached(dbs, y, y.home[c], Resume(c));
        case Nests(c, k, d, retries) =>
          NestCanAwait(y, c, k, d, retries);
          TakeKeepsReached(dbs, y, k, Arrive(d, retries));
          TakeKeepsReached(dbs, Take(y, k, Arrive(d, retries)), y.home[c], Await(c, d));
      }
      ClientsAreQueues(dbs, After(y, e), events[1..]);
    }
  }

  lemma NestCanAwait(y: System, c: CallId, k: ClientId, d: CallId, retries: nat)
    requires Possible(y, Nests(c, k, d, retries))
    ensures Can(Take(y, k, Arrive(d, retries)), y.home[c], Await(c, d))
  {}

  lemma StartIsReached(dbs: map<ClientId, Db>)
    ensures AllReached(dbs, Start(dbs))
  {
    forall k | k in dbs ensures Reached(dbs[k], Init(dbs[k])) {
      var run := [Init(dbs[k])];
      assert SqliteQueue.IsRun(run) && run[|run| - 1] == Init(dbs[k]);
    }
  }

  lemma EveryClientIsSerialisable(dbs: map<ClientId, Db>, events: seq<Event>, k: ClientId)
    requires IsHistory(Start(dbs), events) && k in dbs
    ensures var s := Finally(Start(dbs), events).clients;
      k in s && ReplayLog(dbs[k], s[k].log) == Some(s[k].committed)
  {
    StartIsReached(dbs);
    ClientsAreQueues(dbs, Start(dbs), events);
    var s := Finally(Start(dbs), events).clients[k];
    var run :| SqliteQueue.IsRun(run) && run[0] == Init(dbs[k]) && run[|run| - 1] == s;
    Serialisable(run, |run| - 1, dbs[k]);
  }
}
