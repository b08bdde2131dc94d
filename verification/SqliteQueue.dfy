/**
  Transactions on one synchronous SQLite client.

  A call registers by replacing the client's entry in SQLITE_TRANSACTIONS with a
  promise of its own (a ticket), waits for the promise it replaced, and then runs
  BEGIN, its body and COMMIT or ROLLBACK before it releases its ticket. Everything
  between two awaits is one step; any step of any call may come next. A failed
  attempt that is retried registers again, behind whoever arrived meanwhile. A body
  may await another call, of this client or of any other; here nothing is known of
  when that call ends, so what holds, holds whatever it does. SqliteClients puts many
  such clients together and says when a call can go on.

  The machine is proved to be a FIFO lock and to refine SerialStep, in which a
  whole transaction is one indivisible step.
*/
module SqliteQueue {
  import opened Base

  type CallId = nat
  type Ticket = nat
  type Db = map<string, int>

  /** One statement of a body: what a read saw, or what a write left (None deletes the row). */
  datatype Op = Read(key: string, seen: Option<int>) | Write(key: string, left: Option<int>)

  function Lookup(db: Db, key: string): Option<int> {
    if key in db then Some(db[key]) else None
  }

  /** The database after `op`, or None when `op` claims to have read something else. */
  function Apply(db: Db, op: Op): Option<Db> {
    match op
    case Read(key, seen) => if seen == Lookup(db, key) then Some(db) else None
    case Write(key, Some(v)) => Some(db[key := v])
    case Write(key, None) => Some(db - {key})
  }

  function Replay(db: Db, ops: seq<Op>): Option<Db>
    decreases ops
  {
    if ops == [] then Some(db)
    else match Apply(db, ops[0])
      case None => None
      case Some(next) => Replay(next, ops[1..])
  }

  lemma {:induction false} ReplaySnoc(db: Db, ops: seq<Op>, op: Op)
    requires Replay(db, ops).Some?
    ensures Replay(db, ops + [op]) == Apply(Replay(db, ops).value, op)
    decreases ops
  {
    if ops == [] {
      assert [op][1..] == [];
    } else {
      ReplaySnoc(Apply(db, ops[0]).value, ops[1..], op);
      assert (ops + [op])[1..] == ops[1..] + [op];
    }
  }

  // ---------------------------------------------------------------------------
  // The machine
  // ---------------------------------------------------------------------------

  datatype Phase =
    | Idle                                                   // about to call executeTransaction
    | Queued(ticket: Ticket, previous: Option<Ticket>)       // at `await previous`
    | Running(ticket: Ticket, ops: seq<Op>, child: Option<CallId>)  // between BEGIN and COMMIT
    | Committed
    | Failed

  datatype Call = Call(retries: nat, attempt: nat, phase: Phase) {
    predicate Finished() { phase.Committed? || phase.Failed? }
    predicate HasTicket() { phase.Queued? || phase.Running? }
  }

  /** A committed attempt: who, under which ticket, and what its body did. */
  datatype Entry = Entry(call: CallId, ticket: Ticket, ops: seq<Op>)

  datatype State = State(
    calls: map<CallId, Call>,
    entry: Option<Ticket>,      // SQLITE_TRANSACTIONS.get(client)
    released: set<Ticket>,      // resolved promises
    committed: Db,              // what SQLite has committed
    working: Option<Db>,        // SQLite's open transaction
    owners: seq<CallId>,        // history: who created ticket 0, 1, 2, ...
    entered: seq<Ticket>,       // history: tickets whose wait ended, in that order
    log: seq<Entry>             // history: committed attempts, in COMMIT order
  )

  datatype Outcome =
    | Returned(commits: bool)   // the body returned; `commits` is whether COMMIT succeeded
    | Threw

  datatype Step =
    | Arrive(c: CallId, retries: nat)
    | Register(c: CallId)
    | Begin(c: CallId, works: bool, retriable: bool)
    | Exec(c: CallId, op: Op)
    | Finish(c: CallId, outcome: Outcome, retriable: bool)
    | Await(c: CallId, d: CallId)
    | Resume(c: CallId)

  function Init(db: Db): State {
    State(map[], None, {}, db, None, [], [], [])
  }

  function WithPhase(s: State, c: CallId, phase: Phase): State
    requires c in s.calls
  {
    s.(calls := s.calls[c := s.calls[c].(phase := phase)])
  }

  /** The `finally` block: resolve the ticket and drop the map entry if it is still ours. */
  function Release(s: State, ticket: Ticket): State {
    s.(released := s.released + {ticket}, entry := if s.entry == Some(ticket) then None else s.entry)
  }

  /** The catch block of executeWithRetries: another attempt, or the error leaves `run`. */
  function AfterFailure(s: State, c: CallId, retriable: bool): State
    requires c in s.calls
  {
    var call := s.calls[c];
    if retriable && call.attempt < call.retries + 1 then
      s.(calls := s.calls[c := Call(call.retries, call.attempt + 1, Idle)])
    else
      s.(calls := s.calls[c := call.(phase := Failed)])
  }

  /** Whether the code can take this step now. */
  predicate Enabled(s: State, step: Step) {
    match step
    case Arrive(c, _) => c !in s.calls
    case Register(c) => c in s.calls && s.calls[c].phase.Idle?
    case Begin(c, works, _) =>
      c in s.calls && s.calls[c].phase.Queued?
      && (s.calls[c].phase.previous.Some? ==> s.calls[c].phase.previous.value in s.released)
      && (works ==> s.working.None?)   // SQLite refuses BEGIN inside a transaction
    case Exec(c, op) =>   // by its own body, or by that of an inner call that has joined it again
      c in s.calls && s.calls[c].phase.Running? && s.working.Some? && Apply(s.working.value, op).Some?
    case Finish(c, outcome, _) =>
      c in s.calls && s.calls[c].phase.Running? && s.calls[c].phase.child.None?
      && (outcome == Returned(true) ==> s.working.Some?)
    case Await(c, _) =>
      c in s.calls && s.calls[c].phase.Running? && s.calls[c].phase.child.None?
    case Resume(c) =>
      c in s.calls && s.calls[c].phase.Running? && s.calls[c].phase.child.Some?
  }

  function Next(s: State, step: Step): State
    requires Enabled(s, step)
  {
    match step
    case Arrive(c, retries) => s.(calls := s.calls[c := Call(retries, 1, Idle)])
    case Register(c) =>
      var ticket := |s.owners|;
      WithPhase(s, c, Queued(ticket, s.entry)).(entry := Some(ticket), owners := s.owners + [c])
    case Begin(c, works, retriable) =>
      var ticket := s.calls[c].phase.ticket;
      var s1 := s.(entered := s.entered + [ticket]);
      if works then
        WithPhase(s1, c, Running(ticket, [], None)).(working := Some(s.committed))
      else
        AfterFailure(Release(s1, ticket), c, retriable)
    case Exec(c, op) =>
      var phase := s.calls[c].phase;
      WithPhase(s, c, phase.(ops := phase.ops + [op])).(working := Apply(s.working.value, op))
    case Finish(c, outcome, retriable) =>
      var phase := s.calls[c].phase;
      if outcome == Returned(true) then
        WithPhase(Release(s, phase.ticket), c, Committed)
        .(committed := s.working.value, working := None, log := s.log + [Entry(c, phase.ticket, phase.ops)])
      else
        AfterFailure(Release(s, phase.ticket), c, retriable).(working := None)
    case Await(c, d) =>
      WithPhase(s, c, s.calls[c].phase.(child := Some(d)))
    case Resume(c) =>
      WithPhase(s, c, s.calls[c].phase.(child := None))
  }

  /** The call that `c`'s body awaits. */
  function ChildOf(s: State, c: CallId): Option<CallId> {
    if c in s.calls && s.calls[c].phase.Running? then s.calls[c].phase.child else None
  }

  /** A step is about one call: the others stay as they are, and only Await gives it a child. */
  lemma StepIsOfOneCall(s: State, step: Step)
    requires Enabled(s, step)
    ensures var s' := Next(s, step);
      && step.c in s'.calls && (step.c in s.calls <==> !step.Arrive?)
      && (forall x :: x != step.c ==> (x in s'.calls <==> x in s.calls))
      && (forall x :: x != step.c && x in s.calls ==> s'.calls[x] == s.calls[x])
      && (ChildOf(s', step.c).Some? ==>
        ChildOf(s', step.c) == if step.Await? then Some(step.d) else ChildOf(s, step.c))
  {}

  ghost predicate Steps(s: State, s': State) {
    exists step :: Enabled(s, step) && s' == Next(s, step)
  }

  ghost predicate IsRun(run: seq<State>) {
    && |run| > 0
    && (exists db :: run[0] == Init(db))
    && forall i :: 0 <= i < |run| - 1 ==> Steps(run[i], run[i + 1])
  }

  // ---------------------------------------------------------------------------
  // The invariant
  // ---------------------------------------------------------------------------

  /** The first ticket not released: the head of the queue. */
  function Head(s: State): nat { |s.released| }

  /** Released tickets are 0 .. Head, and the map entry is the last ticket handed out. */
  ghost predicate Chain(s: State) {
    && Head(s) <= |s.owners|
    && (forall t: Ticket :: t in s.released <==> t < Head(s))
    && s.entry == (if Head(s) < |s.owners| then Some(|s.owners| - 1) else None)
  }

  /** A waiting or running call holds its own outstanding ticket and waits for the one before. */
  ghost predicate Holds(s: State, c: CallId)
    requires c in s.calls
  {
    match s.calls[c].phase
    case Queued(t, previous) =>
      && Head(s) <= t < |s.owners| && s.owners[t] == c
      && (previous.None? ==> t == Head(s))
      && (previous.Some? ==> previous.value == t - 1)
    case Running(t, ops, child) =>
      && t == Head(s) < |s.owners| && s.owners[t] == c
      && s.working.Some? && Replay(s.committed, ops) == s.working
    case _ => true
  }

  ghost predicate Owned(s: State, t: Ticket)
    requires t < |s.owners|
  {
    s.owners[t] in s.calls && s.calls[s.owners[t]].HasTicket() && s.calls[s.owners[t]].phase.ticket == t
  }

  /** The call at the head of the queue is between BEGIN and COMMIT. */
  ghost predicate HeadRuns(s: State) {
    && Head(s) < |s.owners|
    && s.owners[Head(s)] in s.calls
    && s.calls[s.owners[Head(s)]].phase.Running?
  }

  ghost predicate Inv(s: State) {
    && Chain(s)
    && (forall c :: c in s.calls ==> Holds(s, c) && 1 <= s.calls[c].attempt <= s.calls[c].retries + 1)
    && (forall t :: Head(s) <= t < |s.owners| ==> Owned(s, t))
    && (s.working.Some? ==> HeadRuns(s))
    && |s.entered| == Head(s) + (if s.working.Some? then 1 else 0)
    && (forall i :: 0 <= i < |s.entered| ==> s.entered[i] == i)
  }

  /** A waiter whose predecessor is released is the head of the queue, and nothing is open. */
  lemma BeginAtHead(s: State, c: CallId)
    requires Inv(s) && Enabled(s, Begin(c, false, false))
    ensures s.calls[c].phase.ticket == Head(s) && s.working.None?
  {
    assert Holds(s, c);
  }

  /** The head of the queue leaving it, whatever became of its transaction. */
  lemma LeaveKeepsInv(s: State, c: CallId, s': State)
    requires Inv(s) && c in s.calls && s.calls[c].HasTicket() && s.calls[c].phase.ticket == Head(s)
    requires c in s'.calls && s'.calls == s.calls[c := s'.calls[c]] && !s'.calls[c].HasTicket()
    requires 1 <= s'.calls[c].attempt <= s'.calls[c].retries + 1
    requires s'.released == s.released + {Head(s)} && s'.owners == s.owners && s'.working == None
    requires s'.entry == if s.entry == Some(Head(s)) then None else s.entry
    requires |s'.entered| == Head(s) + 1 && forall i :: 0 <= i < |s'.entered| ==> s'.entered[i] == i
    ensures Inv(s')
  {
    assert Holds(s, c);
    assert Head(s') == Head(s) + 1;
    forall t | Head(s') <= t < |s'.owners| ensures Owned(s', t) { assert Owned(s, t); }
    forall d | d in s'.calls ensures Holds(s', d) { assert Holds(s, d); }
    forall d | d in s'.calls ensures 1 <= s'.calls[d].attempt <= s'.calls[d].retries + 1 { assert Holds(s, d); }
  }

  lemma BeginWorksKeepsInv(s: State, c: CallId)
    requires Inv(s) && Enabled(s, Begin(c, true, false))
    ensures Inv(Next(s, Begin(c, true, false)))
  {
    BeginAtHead(s, c);
    var s' := Next(s, Begin(c, true, false));
    assert Holds(s, c);
    assert Replay(s.committed, []) == Some(s.committed);
    forall t | Head(s') <= t < |s'.owners| ensures Owned(s', t) { assert Owned(s, t); }
    forall d | d in s'.calls ensures Holds(s', d) { assert Holds(s, d); }
  }

  lemma BeginKeepsInv(s: State, c: CallId, works: bool, retriable: bool)
    requires Inv(s) && Enabled(s, Begin(c, works, retriable))
    ensures Inv(Next(s, Begin(c, works, retriable)))
  {
    BeginAtHead(s, c);
    if works {
      BeginWorksKeepsInv(s, c);
    } else {
      LeaveKeepsInv(s, c, Next(s, Begin(c, works, retriable)));
    }
  }

  lemma FinishKeepsInv(s: State, c: CallId, outcome: Outcome, retriable: bool)
    requires Inv(s) && Enabled(s, Finish(c, outcome, retriable))
    ensures Inv(Next(s, Finish(c, outcome, retriable)))
  {
    hide Inv;
    RunningAtHead(s, c);
    LeaveKeepsInv(s, c, Next(s, Finish(c, outcome, retriable)));
  }

  lemma RunningAtHead(s: State, c: CallId)
    requires Inv(s) && c in s.calls && s.calls[c].phase.Running?
    ensures s.calls[c].phase.ticket == Head(s) && 1 <= s.calls[c].attempt <= s.calls[c].retries + 1
    ensures |s.entered| == Head(s) + 1 && forall i :: 0 <= i < |s.entered| ==> s.entered[i] == i
  {
    assert Holds(s, c);
  }

  lemma RegisterKeepsInv(s: State, c: CallId)
    requires Inv(s) && Enabled(s, Register(c))
    ensures Inv(Next(s, Register(c)))
  {
    var s' := Next(s, Register(c));
    forall t | Head(s') <= t < |s'.owners| ensures Owned(s', t) { if t < |s.owners| { assert Owned(s, t); } }
    forall d | d in s'.calls ensures Holds(s', d) { assert Holds(s, d); }
  }

  lemma ExecKeepsInv(s: State, c: CallId, op: Op)
    requires Inv(s) && Enabled(s, Exec(c, op))
    ensures Inv(Next(s, Exec(c, op)))
  {
    var s' := Next(s, Exec(c, op));
    assert Holds(s, c);
    ReplaySnoc(s.committed, s.calls[c].phase.ops, op);
    forall t | Head(s') <= t < |s'.owners| ensures Owned(s', t) { assert Owned(s, t); }
    forall d | d in s'.calls ensures Holds(s', d) { assert Holds(s, d); }
  }

  lemma OtherKeepsInv(s: State, step: Step)
    requires Inv(s) && Enabled(s, step) && (step.Arrive? || step.Await? || step.Resume?)
    ensures Inv(Next(s, step))
  {
    var s' := Next(s, step);
    forall t | Head(s') <= t < |s'.owners| ensures Owned(s', t) { assert Owned(s, t); }
    forall d | d in s'.calls && d in s.calls ensures Holds(s', d) { assert Holds(s, d); }
  }

  /** Every step keeps the invariant. */
  lemma StepKeepsInv(s: State, step: Step)
    requires Inv(s) && Enabled(s, step)
    ensures Inv(Next(s, step))
  {
    hide Inv, Enabled, Next;
    match step
    case Register(c) => RegisterKeepsInv(s, c);
    case Begin(c, works, retriable) => BeginKeepsInv(s, c, works, retriable);
    case Exec(c, op) => ExecKeepsInv(s, c, op);
    case Finish(c, outcome, retriable) => FinishKeepsInv(s, c, outcome, retriable);
    case _ => OtherKeepsInv(s, step);
  }

  // ---------------------------------------------------------------------------
  // The FIFO lock
  // ---------------------------------------------------------------------------

  /** At most one call is between BEGIN and COMMIT/ROLLBACK, and it is the head of the queue. */
  lemma MutualExclusion(s: State, c: CallId, d: CallId)
    requires Inv(s) && c in s.calls && d in s.calls
    requires s.calls[c].phase.Running? && s.calls[d].phase.Running?
    ensures c == d && s.calls[c].phase.ticket == Head(s)
  {
    assert Holds(s, c) && Holds(s, d);
  }

  /** Calls get past `await previous` in the order in which they registered, each ticket once. */
  lemma EntersInOrder(s: State, c: CallId, works: bool, retriable: bool)
    requires Inv(s) && Enabled(s, Begin(c, works, retriable))
    ensures s.owners[|s.entered|] == c
    ensures Next(s, Begin(c, works, retriable)).entered == s.entered + [|s.entered|]
  {
    BeginAtHead(s, c);
    assert Holds(s, c);
  }

  /** The map entry is absent exactly when no call is between registering and releasing. */
  lemma EntryIsTail(s: State)
    requires Inv(s)
    ensures s.entry.None? <==> forall c :: c in s.calls ==> !s.calls[c].HasTicket()
    ensures s.entry.Some? ==> Owned(s, s.entry.value)
    ensures forall c :: c in s.calls && s.calls[c].HasTicket() && s.entry.Some? ==>
      s.calls[c].phase.ticket <= s.entry.value
  {
    forall c | c in s.calls && s.calls[c].HasTicket()
      ensures Head(s) <= s.calls[c].phase.ticket < |s.owners|
    {
      assert Holds(s, c);
    }
    if s.entry.Some? { assert Owned(s, |s.owners| - 1); }
  }

  /**
    The call whose promise `c` awaits in the queue; a call that is about to register will await
    the tail's.
   */
  function Ahead(s: State, c: CallId): Option<CallId> {
    var promise :=
      if c !in s.calls then None
      else match s.calls[c].phase
        case Idle => s.entry
        case Queued(_, Some(previous)) => if previous in s.released then None else Some(previous)
        case _ => None;
    if promise.Some? && promise.value < |s.owners| then Some(s.owners[promise.value]) else None
  }

  lemma AheadIsOutstanding(s: State, c: CallId)
    requires Inv(s) && Ahead(s, c).Some?
    ensures var d := Ahead(s, c).value;
      c in s.calls && d in s.calls && d != c && s.calls[d].HasTicket() && !s.calls[c].Finished()
  {
    assert Holds(s, c);
    if s.calls[c].phase.Idle? {
      assert Owned(s, s.entry.value);
    } else {
      assert Owned(s, s.calls[c].phase.previous.value);
    }
  }

  /** In the queue everybody waits for the call before, down to the head, which waits for nobody. */
  lemma AheadOfTicket(s: State, t: Ticket)
    requires Inv(s) && Head(s) <= t < |s.owners|
    ensures Ahead(s, s.owners[t]) == if t == Head(s) then None else Some(s.owners[t - 1])
  {
    assert Owned(s, t) && Holds(s, s.owners[t]);
  }

  /** `o`, unless it is `c`. */
  function Drop(o: Option<CallId>, c: CallId): Option<CallId> { if o == Some(c) then None else o }

  /**
    Nobody's place changes by what another call does, but for that call leaving the queue, and
    for its registering: those who have not yet registered will go behind it.
   */
  lemma AheadAfterStep(s: State, step: Step, x: CallId)
    requires Inv(s) && Enabled(s, step) && x in s.calls && x != step.c
    ensures x in Next(s, step).calls && Next(s, step).calls[x] == s.calls[x]
    ensures if step.Register?
      then Ahead(Next(s, step), x) == if s.calls[x].phase.Idle? then Some(step.c) else Ahead(s, x)
      else Drop(Ahead(Next(s, step), x), step.c) == Drop(Ahead(s, x), step.c)
  {
    if s.entry.Some? { assert Owned(s, s.entry.value); }
    match step
    case Register(c) => AheadAfterRegister(s, c, x);
    case Begin(c, works, _) =>
      if !works {
        BeginAtHead(s, c);
        AheadAfterRelease(s, Next(s, step), c, x);
      }
    case Finish(c, _, _) =>
      RunningAtHead(s, c);
      AheadAfterRelease(s, Next(s, step), c, x);
    case _ =>
  }

  /** The head of the queue, leaving it, frees the call behind it. */
  lemma AheadAfterRelease(s: State, s': State, c: CallId, x: CallId)
    requires Inv(s) && x in s.calls && x != c && c in s.calls && s.calls[c].HasTicket()
    requires s.calls[c].phase.ticket == Head(s) && x in s'.calls && s'.calls[x] == s.calls[x]
    requires s'.owners == s.owners && s'.released == s.released + {Head(s)}
    requires s'.entry == if s.entry == Some(Head(s)) then None else s.entry
    ensures Drop(Ahead(s', x), c) == Drop(Ahead(s, x), c)
  {
    assert Holds(s, x) && Holds(s, c);
    if s.entry.Some? { assert Owned(s, s.entry.value); }
    if s.calls[x].phase.Queued? && s.calls[x].phase.ticket > Head(s) { assert Owned(s, s.calls[x].phase.ticket - 1); }
  }

  /** Arriving and awaiting a call move nobody in the queue. */
  lemma AheadUntouched(s: State, step: Step, x: CallId)
    requires Enabled(s, step) && (step.Arrive? || step.Await?) && x in s.calls && x != step.c
    ensures x in Next(s, step).calls && Ahead(Next(s, step), x) == Ahead(s, x)
  {}

  /** The youngest call that has registered and not left. */
  function Tail(s: State): Option<CallId> {
    if s.entry.Some? && s.entry.value < |s.owners| then Some(s.owners[s.entry.value]) else None
  }

  /** The first of the queue. */
  function First(s: State): Option<CallId> {
    if Head(s) < |s.owners| then Some(s.owners[Head(s)]) else None
  }

  lemma FirstUntouched(s: State, step: Step)
    requires Enabled(s, step) && (step.Arrive? || step.Await?)
    ensures First(Next(s, step)) == First(s)
  {}

  /** A call that registers goes behind the tail, and those about to register will go behind it. */
  lemma AheadAfterRegister(s: State, c: CallId, x: CallId)
    requires Inv(s) && Enabled(s, Register(c)) && x in s.calls
    ensures var s' := Next(s, Register(c));
      && x in s'.calls
      && (x != c ==> s'.calls[x] == s.calls[x])
      && Ahead(s', x) == if x != c && s.calls[x].phase.Idle? then Some(c) else Ahead(s, x)
  {
    assert Holds(s, x);
  }

  // ---------------------------------------------------------------------------
  // Refinement to serial execution
  // ---------------------------------------------------------------------------

  /** Whole transactions, one at a time: the callers waiting, the database and the commit log. */
  datatype Serial = Serial(db: Db, served: nat, queue: seq<CallId>, log: seq<Entry>)

  ghost predicate Joins(a: Serial, a': Serial) {
    exists c :: a' == a.(queue := a.queue + [c])
  }

  /** The first caller's whole attempt as one step: it commits `ops` or leaves no trace. */
  ghost predicate Serves(a: Serial, ops: seq<Op>, commits: bool, a': Serial) {
    && a.queue != []
    && (commits ==> Replay(a.db, ops).Some?)
    && a' == Serial(
      if commits then Replay(a.db, ops).value else a.db,
      a.served + 1,
      a.queue[1..],
      if commits then a.log + [Entry(a.queue[0], a.served, ops)] else a.log)
  }

  ghost predicate SerialStep(a: Serial, a': Serial) {
    a' == a || Joins(a, a') || exists ops, commits :: Serves(a, ops, commits, a')
  }

  ghost function Abs(s: State): Serial
    requires Chain(s)
  {
    Serial(s.committed, Head(s), s.owners[Head(s)..], s.log)
  }

  /** Each step of the interleaved machine is a step of the serial one, or changes nothing there. */
  lemma StepRefinesSerial(s: State, step: Step)
    requires Inv(s) && Enabled(s, step)
    ensures Inv(Next(s, step)) && SerialStep(Abs(s), Abs(Next(s, step)))
  {
    StepKeepsInv(s, step);
    var s' := Next(s, step);
    var a, a' := Abs(s), Abs(s');
    match step
    case Register(c) =>
      assert a' == a.(queue := a.queue + [c]);
    case Begin(c, works, retriable) =>
      BeginAtHead(s, c);
      if !works {
        assert Holds(s, c);
        assert Head(s') == Head(s) + 1;
        assert Serves(a, [], false, a');
      }
    case Finish(c, outcome, retriable) =>
      assert Holds(s, c);
      assert Head(s') == Head(s) + 1;
      assert Serves(a, s.calls[c].phase.ops, outcome == Returned(true), a');
    case _ =>
  }

  /** The committed bodies applied one after another; None if a body would not see what it saw. */
  function ReplayLog(db: Db, log: seq<Entry>): Option<Db>
    decreases log
  {
    if log == [] then Some(db)
    else match ReplayLog(db, log[..|log| - 1])
      case None => None
      case Some(before) => Replay(before, log[|log| - 1].ops)
  }

  ghost predicate SerialInv(db: Db, a: Serial) {
    && ReplayLog(db, a.log) == Some(a.db)
    && (forall i :: 0 <= i < |a.log| ==> a.log[i].ticket < a.served)
    && (forall i, j :: 0 <= i < j < |a.log| ==> a.log[i].ticket < a.log[j].ticket)
  }

  lemma SerialStepKeepsInv(db: Db, a: Serial, a': Serial)
    requires SerialInv(db, a) && SerialStep(a, a')
    ensures SerialInv(db, a')
  {
    if a' != a && !Joins(a, a') {
      var ops, commits :| Serves(a, ops, commits, a');
      if commits {
        assert a'.log[..|a'.log| - 1] == a.log;
      }
    }
  }

  /** Every run stays within the invariant and the serial meaning of its commit log. */
  lemma {:induction false} RunIsSerial(run: seq<State>, i: nat, db: Db)
    requires IsRun(run) && i < |run| && run[0] == Init(db)
    ensures Inv(run[i]) && SerialInv(db, Abs(run[i]))
  {
    if i > 0 {
      RunIsSerial(run, i - 1, db);
      assert Steps(run[i - 1], run[i - 1 + 1]);
      var step :| Enabled(run[i - 1], step) && run[i] == Next(run[i - 1], step);
      StepRefinesSerial(run[i - 1], step);
      SerialStepKeepsInv(db, Abs(run[i - 1]), Abs(run[i]));
    }
  }

  /**
    Serialisability. In every reachable state the committed database is the committed
    bodies applied one after another in COMMIT order, each seeing exactly what it read;
    commit order is registration order; and an open transaction has seen the committed
    database plus its own writes, nothing else.
   */
  lemma Serialisable(run: seq<State>, i: nat, db: Db)
    requires IsRun(run) && i < |run| && run[0] == Init(db)
    ensures ReplayLog(db, run[i].log) == Some(run[i].committed)
    ensures forall j, k :: 0 <= j < k < |run[i].log| ==> run[i].log[j].ticket < run[i].log[k].ticket
    ensures forall c :: c in run[i].calls && run[i].calls[c].phase.Running? ==>
      Replay(run[i].committed, run[i].calls[c].phase.ops) == run[i].working
    ensures run[i].working.Some? ==> exists c :: c in run[i].calls && run[i].calls[c].phase.Running?
  {
    RunIsSerial(run, i, db);
    forall c | c in run[i].calls ensures Holds(run[i], c) {}
  }

  // ---------------------------------------------------------------------------
  // Calls
  // ---------------------------------------------------------------------------

  /** A call is in the commit log, and then once, exactly when it committed. */
  ghost predicate LogOnce(s: State) {
    && (forall i :: 0 <= i < |s.log| ==> s.log[i].call in s.calls && s.calls[s.log[i].call].phase.Committed?)
    && (forall i, j :: 0 <= i < j < |s.log| ==> s.log[i].call != s.log[j].call)
    && (forall c :: c in s.calls && s.calls[c].phase.Committed? ==> Logged(s.log, c))
  }

  ghost predicate Logged(log: seq<Entry>, c: CallId) {
    exists i :: 0 <= i < |log| && log[i].call == c
  }

  /** Each attempt of a call, and nothing else, created one ticket. */
  ghost predicate TicketPerAttempt(s: State, c: CallId) {
    multiset(s.owners)[c] ==
      if c !in s.calls then 0
      else if s.calls[c].phase.Idle? then s.calls[c].attempt - 1
      else s.calls[c].attempt
  }

  lemma CommitKeepsLogOnce(s: State, c: CallId)
    requires LogOnce(s) && Enabled(s, Finish(c, Returned(true), false))
    ensures LogOnce(Next(s, Finish(c, Returned(true), false)))
  {
    var s' := Next(s, Finish(c, Returned(true), false));
    assert s'.log[|s.log|].call == c;
    forall d | d in s'.calls && s'.calls[d].phase.Committed? ensures Logged(s'.log, d) {
      if d != c {
        var i :| 0 <= i < |s.log| && s.log[i].call == d;
        assert s'.log[i].call == d;
      }
    }
  }

  lemma StepKeepsLogOnce(s: State, step: Step)
    requires LogOnce(s) && Enabled(s, step)
    ensures LogOnce(Next(s, step))
  {
    if step.Finish? && step.outcome == Returned(true) {
      CommitKeepsLogOnce(s, step.c);
    }
  }

  lemma StepKeepsTicketPerAttempt(s: State, step: Step, c: CallId)
    requires TicketPerAttempt(s, c) && Enabled(s, step)
    ensures TicketPerAttempt(Next(s, step), c)
  {
    match step
    case Register(d) => assert multiset(s.owners + [d]) == multiset(s.owners) + multiset{d};
    case _ =>
  }

  lemma StepKeepsCounts(s: State, s': State)
    requires LogOnce(s) && (forall c :: TicketPerAttempt(s, c)) && Steps(s, s')
    ensures LogOnce(s') && forall c :: TicketPerAttempt(s', c)
  {
    var step :| Enabled(s, step) && s' == Next(s, step);
    StepKeepsLogOnce(s, step);
    forall c ensures TicketPerAttempt(s', c) { StepKeepsTicketPerAttempt(s, step, c); }
  }

  /** Over a whole run: at most retries + 1 attempts per call, and one commit if it committed, else none. */
  lemma {:induction false} RunCommitsOnce(run: seq<State>, i: nat, db: Db)
    requires IsRun(run) && i < |run| && run[0] == Init(db)
    ensures LogOnce(run[i]) && forall c :: TicketPerAttempt(run[i], c)
    ensures forall c :: c in run[i].calls ==> multiset(run[i].owners)[c] <= run[i].calls[c].retries + 1
  {
    if i > 0 {
      RunCommitsOnce(run, i - 1, db);
      assert Steps(run[i - 1], run[i - 1 + 1]);
      StepKeepsCounts(run[i - 1], run[i]);
    }
    RunIsSerial(run, i, db);
    forall c | c in run[i].calls ensures multiset(run[i].owners)[c] <= run[i].calls[c].retries + 1 {
      assert TicketPerAttempt(run[i], c);
    }
  }

  /** How a step ends an attempt: with COMMIT, or with an error that is worth another attempt or not. */
  datatype End = Commits | Fails(retriable: bool)

  function EndOf(step: Step): Option<End> {
    match step
    case Begin(_, works, retriable) => if works then None else Some(Fails(retriable))
    case Finish(_, outcome, retriable) => Some(if outcome == Returned(true) then Commits else Fails(retriable))
    case _ => None
  }

  /**
    A call goes back to the end of the queue exactly when its attempt failed with an error worth
    another and there is one left, with its attempts counted; otherwise the failure is final. A
    COMMIT is final too, and no step but those that end an attempt of the call changes any of this.
   */
  lemma AttemptsEnd(s: State, step: Step, c: CallId)
    requires Enabled(s, step) && c in s.calls
    ensures var was, now := s.calls[c], Next(s, step).calls[c];
      now.retries == was.retries &&
      if step.c != c || EndOf(step).None? then
        && now.attempt == was.attempt
        && (now.phase.Committed? <==> was.phase.Committed?) && (now.phase.Failed? <==> was.phase.Failed?)
        && (now.phase.Idle? <==> was.phase.Idle? && !(step.Register? && step.c == c))
      else if EndOf(step).value.Commits? then now == was.(phase := Committed)
      else if EndOf(step).value.retriable && was.attempt <= was.retries then
        now == Call(was.retries, was.attempt + 1, Idle)
      else now == was.(phase := Failed)
  {}

  /** This step of the run ends an attempt of the call with an error. */
  ghost predicate FailsAt(run: seq<State>, j: nat, step: Step, c: CallId)
    requires j + 1 < |run|
  {
    && Enabled(run[j], step) && run[j + 1] == Next(run[j], step)
    && step.c == c && EndOf(step).Some? && EndOf(step).value.Fails?
  }

  /** In a run, a call has failed for good only by an error not worth another attempt, or after all its attempts. */
  lemma {:induction false} FailedForAReason(run: seq<State>, i: nat, db: Db, c: CallId)
    requires IsRun(run) && i < |run| && run[0] == Init(db)
    requires c in run[i].calls && run[i].calls[c].phase.Failed?
    ensures exists j, step ::
      && 0 <= j < i && FailsAt(run, j, step, c)
      && (EndOf(step).value.retriable ==> multiset(run[i].owners)[c] == run[i].calls[c].retries + 1)
  {
    hide Next, Enabled;
    assert i > 0 by { NothingHappened(db, c, run[0]); }
    var s := run[i - 1];
    assert Steps(s, run[i - 1 + 1]);
    var step :| Enabled(s, step) && run[i] == Next(s, step);
    RunCommitsOnce(run, i, db);
    assert TicketPerAttempt(run[i], c);
    if c in s.calls {
      AttemptsEnd(s, step, c);
      if step.c != c || EndOf(step).None? {
        RunCommitsOnce(run, i - 1, db);
        assert TicketPerAttempt(s, c);
        FailedForAReason(run, i - 1, db, c);
      } else {
        RunIsSerial(run, i - 1, db);
        assert FailsAt(run, i - 1, step, c);
      }
    } else {
      NewIsIdle(s, step, c);
    }
  }

  lemma NothingHappened(db: Db, c: CallId, s: State)
    ensures s == Init(db) ==> c !in s.calls
  {}

  lemma NewIsIdle(s: State, step: Step, c: CallId)
    requires Enabled(s, step) && c !in s.calls && c in Next(s, step).calls
    ensures Next(s, step).calls[c].phase.Idle?
  {}

  /**
    The promise chain is a FIFO lock, in every reachable state: at most one call is between BEGIN
    and COMMIT/ROLLBACK; calls got in in the order in which they registered; the map entry is the
    last ticket handed out while any call is outstanding and absent otherwise; and the first in
    line waits for nobody in this queue.
   */
  lemma FifoLock(run: seq<State>, i: nat, db: Db)
    requires IsRun(run) && i < |run| && run[0] == Init(db)
    ensures var s := run[i];
      && (forall c, d ::
        c in s.calls && s.calls[c].phase.Running? && d in s.calls && s.calls[d].phase.Running? ==> c == d)
      && (forall k :: 0 <= k < |s.entered| ==> s.entered[k] == k)
      && (s.entry.None? <==> forall c :: c in s.calls ==> !s.calls[c].HasTicket())
      && (s.entry.Some? ==> Head(s) < |s.owners| && s.entry.value == |s.owners| - 1 && Owned(s, s.entry.value))
      && (s.entry.Some? ==> Ahead(s, s.owners[Head(s)]).None?)
  {
    RunIsSerial(run, i, db);
    var s := run[i];
    forall c, d | c in s.calls && s.calls[c].phase.Running? && d in s.calls && s.calls[d].phase.Running?
      ensures c == d
    {
      MutualExclusion(s, c, d);
    }
    EntryIsTail(s);
    if s.entry.Some? { assert Owned(s, Head(s)) && Holds(s, s.owners[Head(s)]); }
  }
}
