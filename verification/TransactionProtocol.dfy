/**
  The referee of a transaction trace, and the proof that it accepts every call tree.
  It knows nothing of calls, attempts or arrays: it follows which databases have an
  open transaction, what was registered for each, and which callbacks are now due.
 */
module TransactionProtocol {
  import opened Base
  import opened TransactionTree

  /** An open transaction and the callbacks registered for it so far. */
  datatype Frame = Frame(txn: Txn, commit: seq<Callback>, rollback: seq<Callback>)

  datatype Protocol = Protocol(
    open: map<string, Frame>,
    order: seq<string>,        // open databases, innermost last
    due: seq<Callback>,        // callbacks that must run now, before anything else happens
    next: Txn,
    level: nat)                // how many runs are inside one another

  /** The protocol after `e`, or None when `e` breaks it. */
  function Observe(p: Protocol, e: Event): Option<Protocol> {
    if p.due != [] then
      if e == Ran(p.due[0]) then Some(p.(due := p.due[1..])) else None
    else match e
      case Began(d, txn) =>
        if d !in p.open && txn == p.next then
          Some(Protocol(p.open[d := Frame(txn, [], [])], p.order + [d], [], p.next + 1, p.level))
        else None
      case Entry(d, txn) =>
        if d in p.open && p.open[d] == Frame(txn, [], []) && p.order != [] && p.order[|p.order| - 1] == d
        then Some(p.(level := p.level + 1)) else None
      case SawDepth(depth) => if depth == p.level then Some(p) else None
      case Joined(d) => if d in p.open then Some(p.(level := p.level + 1)) else None
      case Left(d) => if d in p.open && p.level > 0 then Some(p.(level := p.level - 1)) else None
      case Accessed(d, seen) =>
        if seen == (if d in p.open then Some(p.open[d].txn) else None) then Some(p) else None
      case Hooked(hook, d, callback) =>
        if d in p.open then Some(p.(open := p.open[d := Push(p.open[d], hook, callback)])) else None
      case Immediate(d, callback) =>
        if d !in p.open then Some(p) else None
      case Committed(d, txn) =>
        if Closes(p, d, txn) then Some(Close(p, d, p.open[d].commit)) else None
      case RolledBack(d, txn) =>
        if Closes(p, d, txn) then Some(Close(p, d, p.open[d].rollback)) else None
      case Ran(_) => None
  }

  function Push(f: Frame, hook: Hook, callback: Callback): Frame {
    if hook.OnCommit? then f.(commit := f.commit + [callback]) else f.(rollback := f.rollback + [callback])
  }

  /** Transactions end innermost first. */
  predicate Closes(p: Protocol, d: string, txn: Txn) {
    d in p.open && p.open[d].txn == txn && p.order != [] && p.order[|p.order| - 1] == d && p.level > 0
  }

  function Close(p: Protocol, d: string, due: seq<Callback>): Protocol
    requires p.order != [] && p.level > 0
  {
    Protocol(p.open - {d}, p.order[..|p.order| - 1], due, p.next, p.level - 1)
  }

  function Check(p: Protocol, trace: seq<Event>): Option<Protocol>
    decreases trace
  {
    if trace == [] then Some(p)
    else match Observe(p, trace[0])
      case None => None
      case Some(q) => Check(q, trace[1..])
  }

  /** The referee accepts `trace` from `p` and then believes `q`. */
  ghost predicate Accepts(p: Protocol, trace: seq<Event>, q: Protocol) {
    Check(p, trace) == Some(q)
  }

  lemma {:induction false} AcceptsConcat(p: Protocol, a: seq<Event>, q: Protocol, b: seq<Event>, r: Protocol)
    requires Accepts(p, a, q) && Accepts(q, b, r)
    ensures Accepts(p, a + b, r)
    decreases a
  {
    if a == [] {
      assert a + b == b;
    } else {
      assert (a + b)[1..] == a[1..] + b;
      AcceptsConcat(Observe(p, a[0]).value, a[1..], q, b, r);
    }
  }

  lemma AcceptsNothing(p: Protocol)
    ensures Accepts(p, [], p)
  {}

  lemma AcceptsThen(p: Protocol, a: seq<Event>, q: Protocol, b: seq<Event>)
    requires Accepts(p, a, q)
    ensures forall r :: Accepts(q, b, r) ==> Accepts(p, a + b, r)
  {
    forall r | Accepts(q, b, r) ensures Accepts(p, a + b, r) { AcceptsConcat(p, a, q, b, r); }
  }

  lemma AcceptsOne(p: Protocol, e: Event)
    requires Observe(p, e).Some?
    ensures Accepts(p, [e], Observe(p, e).value)
  {
    assert [e][1..] == [];
  }

  lemma {:induction false} AcceptsFlush(p: Protocol)
    ensures Accepts(p, Flushed(p.due), p.(due := []))
    decreases |p.due|
  {
    if p.due != [] {
      assert Flushed(p.due)[1..] == Flushed(p.due[1..]);
      AcceptsFlush(p.(due := p.due[1..]));
    }
  }

  /** A trace that leaves callbacks due, and then those callbacks. */
  lemma AcceptsThenFlush(p: Protocol, trace: seq<Event>, q: Protocol)
    requires Accepts(p, trace, q)
    ensures Accepts(p, trace + Flushed(q.due), q.(due := []))
  {
    AcceptsFlush(q);
    AcceptsConcat(p, trace, q, Flushed(q.due), q.(due := []));
  }

  /** What the referee should believe when a scope is current and the runs hold `arrays`. */
  function Opened(scope: Scope, arrays: seq<Arrays>): map<string, Frame>
    requires ValidScope(scope, |arrays|)
  {
    map d | d in scope.active :: FrameOf(scope.active[d].txn, arrays[scope.active[d].owner])
  }

  function FrameOf(txn: Txn, a: Arrays): Frame { Frame(txn, a.commit, a.rollback) }

  function Belief(scope: Scope, arrays: seq<Arrays>, next: Txn, order: seq<string>, due: seq<Callback>): Protocol
    requires ValidScope(scope, |arrays|)
  {
    Protocol(Opened(scope, arrays), order, due, next, scope.depth)
  }

  /**
    Every run of every call tree, in every scope and however it ends, is accepted: BEGIN
    and COMMIT/ROLLBACK are properly nested, one transaction per database at a time; every
    repository access sees the transaction open for its database and no other; the callbacks
    that run are exactly those registered for the transaction that ended, in order, once,
    immediately after it ended (so rollback callbacks before any next attempt).
   */
  lemma {:induction false} RunAccepted(
      cfg: Config, scope: Scope, arrays: seq<Arrays>, next: Txn, call: Call, order: seq<string>)
    requires ValidScope(scope, |arrays|)
    ensures var r := Run(cfg, scope, arrays, next, call);
      Accepts(Belief(scope, arrays, next, order, []), r.trace, Belief(scope, r.arrays, r.next, order, []))
    decreases call, 3
  {
    hide Check;
    hide Observe;
    AcceptsNothing(Belief(scope, arrays, next, order, []));
    if call.database in scope.active {
      JoinAccepted(cfg, scope, arrays, next, call, order);
    } else if call.database in cfg.drivers {
      OutermostAccepted(cfg, scope, arrays, next, call, order);
    }
  }

  lemma {:induction false} JoinAccepted(
      cfg: Config, scope: Scope, arrays: seq<Arrays>, next: Txn, call: Call, order: seq<string>)
    requires ValidScope(scope, |arrays|) && call.database in scope.active
    ensures var r := Run(cfg, scope, arrays, next, call);
      Accepts(Belief(scope, arrays, next, order, []), r.trace, Belief(scope, r.arrays, r.next, order, []))
    decreases call, 2
  {
    hide Check;
    hide Observe;
    var deeper := scope.(depth := scope.depth + 1);
    BodyAccepted(cfg, deeper, arrays, next, call.first.body, order);
    var r := Body(cfg, deeper, arrays, next, call.first.body);
    var p, q := Belief(scope, arrays, next, order, []), Belief(scope, r.arrays, r.next, order, []);
    var p1, q1 := Belief(deeper, arrays, next, order, []), Belief(deeper, r.arrays, r.next, order, []);
    JoinObserved(p, call.database);
    JoinObserved(q, call.database);
    AcceptsOne(p, Joined(call.database));
    AcceptsOne(q1, Left(call.database));
    AcceptsConcat(p, [Joined(call.database)], p1, r.trace, q1);
    AcceptsConcat(p, [Joined(call.database)] + r.trace, q1, [Left(call.database)], q);
  }

  lemma JoinObserved(p: Protocol, d: string)
    requires p.due == [] && d in p.open
    ensures Observe(p, Joined(d)) == Some(p.(level := p.level + 1))
    ensures Observe(p.(level := p.level + 1), Left(d)) == Some(p)
  {}

  lemma {:induction false} OutermostAccepted(
      cfg: Config, scope: Scope, arrays: seq<Arrays>, next: Txn, call: Call, order: seq<string>)
    requires ValidScope(scope, |arrays|) && call.database !in scope.active && call.database in cfg.drivers
    ensures var r := Run(cfg, scope, arrays, next, call);
      Accepts(Belief(scope, arrays, next, order, []), r.trace, Belief(scope, r.arrays, r.next, order, []))
    decreases call, 2
  {
    hide Check;
    hide Observe;
    var id := |arrays|;
    var wider := arrays + [Arrays([], [])];
    RetryAccepted(cfg, scope, wider, next, call, 1, id, order);
    assert Opened(scope, wider) == Opened(scope, arrays);
    var r := Retry(cfg, scope, wider, next, call, 1, id);
    if r.outcome.Returned? {
      AcceptsThenFlush(Belief(scope, arrays, next, order, []), r.trace,
                       Belief(scope, r.arrays, r.next, order, r.arrays[id].commit));
    }
  }

  /** Clearing the arrays of a run on an inactive database changes nothing the referee sees. */
  lemma EmptiedOpened(scope: Scope, arrays: seq<Arrays>, d: string, id: RunId)
    requires Owns(scope, |arrays|, d, id)
    ensures Opened(scope, arrays[id := Arrays([], [])]) == Opened(scope, arrays)
  {}

  /** What is due after run `id`: its commit callbacks once it committed. */
  function Settled(scope: Scope, order: seq<string>, id: RunId, r: Effect): Protocol
    requires ValidScope(scope, |r.arrays|) && id < |r.arrays|
  {
    Belief(scope, r.arrays, r.next, order, if r.outcome.Returned? then r.arrays[id].commit else [])
  }

  /** A failed attempt followed by its rollback callbacks, and then by the attempts after it if any. */
  lemma FailureAccepted(
      scope: Scope, order: seq<string>, id: RunId, p: Protocol, r: Effect, error: Error, again: Effect)
    requires ValidScope(scope, |r.arrays|) && id < |r.arrays| <= |again.arrays| && r.outcome.Raised?
    requires Accepts(p, r.trace, Belief(scope, r.arrays, r.next, order, r.arrays[id].rollback))
    ensures var stopped := Effect(r.trace + Flushed(r.arrays[id].rollback), r.arrays, r.next, Raised(error));
      Accepts(p, stopped.trace, Settled(scope, order, id, stopped))
    ensures Accepts(Belief(scope, r.arrays, r.next, order, []), again.trace, Settled(scope, order, id, again))
      ==> Accepts(p, Then(r.trace + Flushed(r.arrays[id].rollback), again).trace, Settled(scope, order, id, again))
  {
    hide Check;
    hide Observe;
    var q := Belief(scope, r.arrays, r.next, order, r.arrays[id].rollback);
    AcceptsThenFlush(p, r.trace, q);
    AcceptsThen(p, r.trace + Flushed(q.due), q.(due := []), again.trace);
  }

  lemma {:induction false} RetryAccepted(
      cfg: Config, scope: Scope, arrays: seq<Arrays>, next: Txn,
      call: Call, attempt: nat, id: RunId, order: seq<string>)
    requires Owns(scope, |arrays|, call.database, id)
    requires call.database in cfg.drivers && 1 <= attempt <= call.retries + 1
    ensures var r := Retry(cfg, scope, arrays, next, call, attempt, id);
      Accepts(Belief(scope, arrays, next, order, []), r.trace, Settled(scope, order, id, r))
    decreases call, 1, call.retries + 1 - attempt
  {
    hide Check;
    hide Observe, Execute, Opened, FirstFailure;
    var empty := arrays[id := Arrays([], [])];
    EmptiedOpened(scope, arrays, call.database, id);
    ExecuteAccepted(cfg, scope, empty, next, call, attempt, id, order);
    var r := Execute(cfg, scope, empty, next, call, attempt, id);
    var whole := Retry(cfg, scope, arrays, next, call, attempt, id);
    if r.outcome.Returned? {
      assert whole == r;
    } else {
      var p, undo := Belief(scope, arrays, next, order, []), r.arrays[id].rollback;
      if FirstFailure(undo).None? && attempt < call.retries + 1 && cfg.retriable(r.outcome.error) {
        RetryAccepted(cfg, scope, r.arrays, r.next, call, attempt + 1, id, order);
        var again := Retry(cfg, scope, r.arrays, r.next, call, attempt + 1, id);
        FailureAccepted(scope, order, id, p, r, r.outcome.error, again);
        assert whole == Then(r.trace + Flushed(undo), again);
      } else {
        FailureAccepted(scope, order, id, p, r, Raises(FirstFailure(undo), r.outcome).error, r);
        assert whole == Effect(r.trace + Flushed(undo), r.arrays, r.next, Raises(FirstFailure(undo), r.outcome));
      }
    }
  }

  lemma InsideOpened(scope: Scope, arrays: seq<Arrays>, d: string, txn: Txn, id: RunId)
    requires Owns(scope, |arrays|, d, id)
    ensures ValidScope(Inside(scope, d, txn, id), |arrays|)
    ensures Opened(Inside(scope, d, txn, id), arrays) == Opened(scope, arrays)[d := FrameOf(txn, arrays[id])]
    ensures Opened(Inside(scope, d, txn, id), arrays) - {d} == Opened(scope, arrays)
  {}

  /** One attempt: a transaction opens, its entry hook runs, things happen inside, it ends. */
  lemma AttemptAccepted(p: Protocol, d: string, txn: Txn, inner: seq<Event>, q: Protocol, last: Event)
    requires p.due == [] && d !in p.open && txn == p.next
    requires Accepts(Protocol(p.open[d := Frame(txn, [], [])], p.order + [d], [], p.next + 1, p.level + 1), inner, q)
    requires Observe(q, last).Some?
    ensures Accepts(p, [Began(d, txn), Entry(d, txn)] + inner + [last], Observe(q, last).value)
  {
    hide Check;
    var p1 := Protocol(p.open[d := Frame(txn, [], [])], p.order + [d], [], p.next + 1, p.level);
    var p2 := p1.(level := p.level + 1);
    AcceptsOne(p, Began(d, txn));
    AcceptsOne(p1, Entry(d, txn));
    AcceptsConcat(p, [Began(d, txn)], p1, [Entry(d, txn)], p2);
    assert [Began(d, txn)] + [Entry(d, txn)] == [Began(d, txn), Entry(d, txn)];
    AcceptsConcat(p, [Began(d, txn), Entry(d, txn)], p2, inner, q);
    AcceptsOne(q, last);
    AcceptsConcat(p, [Began(d, txn), Entry(d, txn)] + inner, q, [last], Observe(q, last).value);
  }

  /** COMMIT or ROLLBACK takes the referee back to the enclosing scope, with the hooks due. */
  lemma EndObserved(
      scope: Scope, arrays: seq<Arrays>, next: Txn, d: string, txn: Txn, id: RunId, order: seq<string>)
    requires Owns(scope, |arrays|, d, id)
    ensures ValidScope(Inside(scope, d, txn, id), |arrays|)
    ensures var p := Belief(Inside(scope, d, txn, id), arrays, next, order + [d], []);
      && Observe(p, Event.Committed(d, txn)) == Some(Belief(scope, arrays, next, order, arrays[id].commit))
      && Observe(p, RolledBack(d, txn)) == Some(Belief(scope, arrays, next, order, arrays[id].rollback))
  {
    InsideOpened(scope, arrays, d, txn, id);
    assert (order + [d])[..|order + [d]| - 1] == order;
  }

  /** The two ways an attempt on `d` ends, given that what happens inside is accepted. */
  lemma EndAccepted(
      scope: Scope, arrays: seq<Arrays>, next: Txn, d: string, id: RunId, order: seq<string>, r: Effect, last: Event)
    requires Owns(scope, |arrays|, d, id) && arrays[id] == Arrays([], [])
    requires |arrays| <= |r.arrays| && ValidScope(Inside(scope, d, next, id), |arrays|)
    requires Accepts(Belief(Inside(scope, d, next, id), arrays, next + 1, order + [d], []), r.trace,
                     Belief(Inside(scope, d, next, id), r.arrays, r.next, order + [d], []))
    requires last == Event.Committed(d, next) || last == RolledBack(d, next)
    ensures Accepts(Belief(scope, arrays, next, order, []), [Began(d, next), Entry(d, next)] + r.trace + [last],
                    Belief(scope, r.arrays, r.next, order,
                           if last.Committed? then r.arrays[id].commit else r.arrays[id].rollback))
  {
    hide Check;
    hide Observe;
    InsideOpened(scope, arrays, d, next, id);
    EndObserved(scope, r.arrays, r.next, d, next, id, order);
    AttemptAccepted(Belief(scope, arrays, next, order, []), d, next, r.trace,
                    Belief(Inside(scope, d, next, id), r.arrays, r.next, order + [d], []), last);
  }

  lemma {:induction false} ExecuteAccepted(
      cfg: Config, scope: Scope, arrays: seq<Arrays>, next: Txn,
      call: Call, attempt: nat, id: RunId, order: seq<string>)
    requires Owns(scope, |arrays|, call.database, id) && arrays[id] == Arrays([], [])
    requires call.database in cfg.drivers && attempt >= 1
    ensures var r := Execute(cfg, scope, arrays, next, call, attempt, id);
      Accepts(Belief(scope, arrays, next, order, []), r.trace,
              Belief(scope, r.arrays, r.next, order,
                     if r.outcome.Returned? then r.arrays[id].commit else r.arrays[id].rollback))
    decreases call, 0
  {
    hide Check;
    hide Observe;
    AcceptsNothing(Belief(scope, arrays, next, order, []));
    var d, a := call.database, call.AttemptAt(attempt);
    if !cfg.drivers[d].NoTransactions? && a.beginError.None? {
      InsideOpened(scope, arrays, d, next, id);
      if a.entryError.None? {
        BodyAccepted(cfg, Inside(scope, d, next, id), arrays, next + 1, a.body, order + [d]);
      } else {
        AcceptsNothing(Belief(Inside(scope, d, next, id), arrays, next + 1, order + [d], []));
      }
      var r := Invoke(cfg, Inside(scope, d, next, id), arrays, next + 1, a);
      EndAccepted(scope, arrays, next, d, id, order, r,
        if r.outcome.Returned? && a.commitError.None? then Event.Committed(d, next) else RolledBack(d, next));
    }
  }

  lemma {:induction false} BodyAccepted(
      cfg: Config, scope: Scope, arrays: seq<Arrays>, next: Txn, ops: seq<Op>, order: seq<string>)
    requires ValidScope(scope, |arrays|)
    ensures var r := Body(cfg, scope, arrays, next, ops);
      Accepts(Belief(scope, arrays, next, order, []), r.trace, Belief(scope, r.arrays, r.next, order, []))
    decreases ops, 4
  {
    hide Check;
    hide Observe;
    AcceptsNothing(Belief(scope, arrays, next, order, []));
    if ops != [] {
      PerformAccepted(cfg, scope, arrays, next, ops[0], order);
      var one := Perform(cfg, scope, arrays, next, ops[0]);
      if one.outcome.Returned? {
        BodyAccepted(cfg, scope, one.arrays, one.next, ops[1..], order);
        var rest := Body(cfg, scope, one.arrays, one.next, ops[1..]);
        AcceptsConcat(Belief(scope, arrays, next, order, []), one.trace,
                      Belief(scope, one.arrays, one.next, order, []), rest.trace,
                      Belief(scope, rest.arrays, rest.next, order, []));
      }
    }
  }

  lemma PushOpened(scope: Scope, arrays: seq<Arrays>, d: string, hook: Hook, callback: Callback)
    requires ValidScope(scope, |arrays|) && d in scope.active
    ensures Opened(scope, Pushed(arrays, scope.active[d].owner, hook, callback))
      == Opened(scope, arrays)[d := Push(Opened(scope, arrays)[d], hook, callback)]
  {}

  /** Registering a callback, or running it at once when nothing is open. */
  lemma HookAccepted(
      cfg: Config, scope: Scope, arrays: seq<Arrays>, next: Txn, op: Op, order: seq<string>)
    requires ValidScope(scope, |arrays|) && (op.AfterCommit? || op.AfterRollback?)
    ensures var r := Perform(cfg, scope, arrays, next, op);
      Accepts(Belief(scope, arrays, next, order, []), r.trace, Belief(scope, r.arrays, r.next, order, []))
  {
    hide Check;
    AcceptsNothing(Belief(scope, arrays, next, order, []));
    var p := Belief(scope, arrays, next, order, []);
    var hook := if op.AfterCommit? then OnCommit else OnRollback;
    if op.database in scope.active {
      PushOpened(scope, arrays, op.database, hook, op.callback);
      AcceptsOne(p, Hooked(hook, op.database, op.callback));
    } else if op.AfterCommit? {
      AcceptsOne(p, Immediate(op.database, op.callback));
    }
  }

  lemma {:induction false} PerformAccepted(
      cfg: Config, scope: Scope, arrays: seq<Arrays>, next: Txn, op: Op, order: seq<string>)
    requires ValidScope(scope, |arrays|)
    ensures var r := Perform(cfg, scope, arrays, next, op);
      Accepts(Belief(scope, arrays, next, order, []), r.trace, Belief(scope, r.arrays, r.next, order, []))
    decreases op, 4
  {
    hide Check;
    AcceptsNothing(Belief(scope, arrays, next, order, []));
    match op
    case ReadDepth => AcceptsOne(Belief(scope, arrays, next, order, []), SawDepth(scope.depth));
    case Access(d) => AcceptsOne(Belief(scope, arrays, next, order, []), Accessed(d, GetActive(scope, d)));
    case AfterCommit(_, _) => HookAccepted(cfg, scope, arrays, next, op, order);
    case AfterRollback(_, _) => HookAccepted(cfg, scope, arrays, next, op, order);
    case Nested(call, caught) => RunAccepted(cfg, scope, arrays, next, call, order);
    case Throw(_) =>
  }

  /** A run started outside any transaction: accepted from nothing, and nothing is left open or due. */
  lemma TopLevelRunAccepted(cfg: Config, call: Call)
    ensures var r := Run(cfg, Scope(map[], 0), [], 0, call);
      Accepts(Protocol(map[], [], [], 0, 0), r.trace, Protocol(map[], [], [], r.next, 0))
  {
    hide Check;
    hide Observe;
    var scope := Scope(map[], 0);
    RunAccepted(cfg, scope, [], 0, call, []);
    var r := Run(cfg, scope, [], 0, call);
    assert Opened(scope, r.arrays) == map[] && Opened(scope, []) == map[];
  }
}
