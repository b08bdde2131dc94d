/**
  Which calls on many SQLite clients can still get on.

  A body that awaits nothing is taken to finish some time. Then the answer is read off a
  graph, in which each call waits for at most one other: the call its body awaits, or the
  call before it in the queue.
 */
module SqliteDeadlock {
  import opened Base
  import opened SqliteQueue
  import opened SqliteClients

  // ---------------------------------------------------------------------------
  // Who waits for whom
  // ---------------------------------------------------------------------------

  /**
    The one call that `c` cannot get on without: the call its body awaits, unless that has
    ended, or the call before it in the queue.
   */
  function WaitsFor(y: System, c: CallId): Option<CallId> {
    if CallOf(y, c).None? then None
    else if Child(y, c).None? then Ahead(y.clients[y.home[c]], c)
    else if Ended(y, Child(y, c).value) then None
    else Child(y, c)
  }

  /** A call that is waited for has not ended. */
  lemma WaitedForIsOpen(y: System, c: CallId)
    requires Sound(y) && WaitsFor(y, c).Some?
    ensures var d := WaitsFor(y, c).value;
      && c in y.home && CallOf(y, c).Some? && !Ended(y, c)
      && d in y.home && CallOf(y, d).Some? && !Ended(y, d)
  {
    hide Inv, Ahead;
    if Child(y, c).None? { AheadIsOutstanding(y.clients[y.home[c]], c); }
  }

  /** Whom a call waits for changes by its own steps alone, or when that call is served. */
  lemma TakeBeside(y: System, k: ClientId, step: Step, x: CallId)
    requires Fits(y, k, step) && x in y.home && x != step.c
    requires step.Register? ==> y.clients[k].entry.None?
    ensures Drop(WaitsFor(Take(y, k, step), x), step.c) == Drop(WaitsFor(y, x), step.c)
  {
    hide Inv, SqliteQueue.Enabled, SqliteQueue.Next, Ahead, ChildOf;
    TakeTouchesOne(y, k, step, x);
    if Child(y, x).Some? {
      if Child(y, x).value != step.c { TakeTouchesOne(y, k, step, Child(y, x).value); }
    } else if y.home[x] == k {
      AheadAfterStep(y.clients[k], step, x);
      NobodyAheadOfIdle(y.clients[k], x);
    }
  }

  lemma NobodyAheadOfIdle(s: State, x: CallId)
    requires x in s.calls
    ensures s.calls[x].phase.Idle? && s.entry.None? ==> Ahead(s, x).None?
  {}

  /** A call that registers waits for the tail as before, and those about to register wait for it. */
  lemma TakeRegister(y: System, k: ClientId, c: CallId, x: CallId)
    requires Fits(y, k, Register(c)) && x in y.home
    ensures WaitsFor(Take(y, k, Register(c)), x)
      == if x != c && y.home[x] == k && CallOf(y, x).value.phase.Idle? then Some(c) else WaitsFor(y, x)
  {
    hide Inv, SqliteQueue.Next, Ahead;
    var y' := Take(y, k, Register(c));
    if x != c { TakeTouchesOne(y, k, Register(c), x); }
    RegisterLeavesOpen(y.clients[k], c);
    assert !Ended(y, c) && !Ended(y', c);
    if Child(y, x).Some? {
      if Child(y, x).value != c { TakeTouchesOne(y, k, Register(c), Child(y, x).value); }
    } else if y.home[x] == k {
      AheadAfterRegister(y.clients[k], c, x);
    }
  }

  lemma RegisterLeavesOpen(s: State, c: CallId)
    requires Enabled(s, Register(c))
    ensures var s' := SqliteQueue.Next(s, Register(c));
      c in s'.calls && !s'.calls[c].Finished() && ChildOf(s', c) == None
  {}

  // ---------------------------------------------------------------------------
  // Closed sets
  // ---------------------------------------------------------------------------

  /** Calls that wait for one another and for nobody else. */
  ghost predicate Closed(y: System, calls: set<CallId>) {
    forall c :: c in calls ==> WaitsFor(y, c).Some? && WaitsFor(y, c).value in calls
  }

  /** Calls that have registered and not left, and their state. */
  ghost predicate StaysIn(y: System, y': System, calls: set<CallId>) {
    forall c :: c in calls && CallOf(y, c).Some? && CallOf(y, c).value.HasTicket() ==> CallOf(y', c) == CallOf(y, c)
  }

  /** Somebody else's step leaves a closed set as it is. */
  lemma TakeKeepsClosed(y: System, k: ClientId, step: Step, calls: set<CallId>)
    requires Fits(y, k, step) && Closed(y, calls) && step.c !in calls && !step.Register?
    ensures Closed(Take(y, k, step), calls) && StaysIn(y, Take(y, k, step), calls)
  {
    hide Fits, WaitsFor, Take, CallOf;
    FitsCan(y, k, step);
    var y' := Take(y, k, step);
    forall c | c in calls
      ensures WaitsFor(y', c) == WaitsFor(y, c) && CallOf(y', c) == CallOf(y, c)
    {
      WaitedForIsOpen(y, c);
      TakeTouchesOne(y, k, step, c);
      TakeBeside(y, k, step, c);
    }
  }

  lemma FitsCan(y: System, k: ClientId, step: Step)
    requires Fits(y, k, step)
    ensures Can(y, k, step) && Sound(y)
  {}

  /** The calls of a closed set, and the one that registers behind one of them. */
  ghost function Joined(y: System, c: CallId, calls: set<CallId>): set<CallId> {
    if WaitsFor(y, c).Some? && WaitsFor(y, c).value in calls then calls + {c} else calls
  }

  lemma RegisterWaitsInside(y: System, k: ClientId, c: CallId, calls: set<CallId>, x: CallId)
    requires Fits(y, k, Register(c)) && Closed(y, calls) && x in Joined(y, c, calls)
    ensures var w := WaitsFor(Take(y, k, Register(c)), x); w.Some? && w.value in Joined(y, c, calls)
  {
    hide Inv, Ahead, WaitsFor, Sound;
    FitsCan(y, k, Register(c));
    WaitedForIsOpen(y, x);
    TakeRegister(y, k, c, x);
    if x != c && y.home[x] == k && CallOf(y, x).value.phase.Idle? { SameTail(y, k, c, x); }
  }

  /** When a call registers behind a call of a closed set, it joins the set. */
  lemma RegisterKeepsClosed(y: System, k: ClientId, c: CallId, calls: set<CallId>)
    requires Fits(y, k, Register(c)) && Closed(y, calls)
    ensures Closed(Take(y, k, Register(c)), Joined(y, c, calls)) && StaysIn(y, Take(y, k, Register(c)), calls)
  {
    hide Fits, WaitsFor, Take, Joined;
    FitsCan(y, k, Register(c));
    var y' := Take(y, k, Register(c));
    forall x | x in Joined(y, c, calls)
      ensures WaitsFor(y', x).Some? && WaitsFor(y', x).value in Joined(y, c, calls)
    {
      RegisterWaitsInside(y, k, c, calls, x);
    }
    forall x | x in calls && CallOf(y, x).Some? && CallOf(y, x).value.HasTicket()
      ensures CallOf(y', x) == CallOf(y, x)
    {
      RegistersIdle(y, k, c);
      if x != c { TakeTouchesOne(y, k, Register(c), x); }
    }
  }

  lemma RegistersIdle(y: System, k: ClientId, c: CallId)
    requires Fits(y, k, Register(c))
    ensures CallOf(y, c).Some? && !CallOf(y, c).value.HasTicket()
  {}

  /** Two calls about to register at one client wait for the same tail. */
  lemma SameTail(y: System, k: ClientId, c: CallId, x: CallId)
    requires Fits(y, k, Register(c)) && x in y.home && y.home[x] == k && CallOf(y, x).Some?
    requires CallOf(y, x).value.phase.Idle?
    ensures WaitsFor(y, x) == WaitsFor(y, c)
  {}

  /** Whoever does anything but register, or write through others, waits for nobody. */
  lemma ActorWaitsForNobody(y: System, e: Event)
    requires Sound(y) && Possible(y, e) && !(e.Goes? && e.step.Register?) && !e.Writes?
    ensures WaitsFor(y, e.Actor()) == None
  {
    hide Inv;
  }

  lemma NewcomersAreOutside(y: System, calls: set<CallId>, c: CallId)
    requires Sound(y) && Closed(y, calls) && (c !in y.home || WaitsFor(y, c).None?)
    ensures c !in calls
  {
    hide Sound;
    if c in calls { WaitedForIsOpen(y, c); }
  }

  /** A body at work is in no closed set, and so neither is a call that awaits it, however deep. */
  lemma {:induction false} WriterIsOutside(y: System, calls: set<CallId>, c: CallId, depth: nat)
    requires Sound(y) && Closed(y, calls) && Inner(y, c, depth).Some? && AtWork(y, Inner(y, c, depth).value)
    ensures c !in calls
  {
    if c in calls { InnerStaysInside(y, calls, c, depth); }
  }

  /** From a closed set the awaited calls are in the set, as long as they have not ended. */
  lemma {:induction false} InnerStaysInside(y: System, calls: set<CallId>, c: CallId, depth: nat)
    requires Sound(y) && Closed(y, calls) && c in calls
    requires Inner(y, c, depth).Some?
    ensures Inner(y, c, depth).value in calls
  {
    hide Inv, Ahead, ChildOf;
    if depth > 0 {
      InnerStaysInside(y, calls, c, depth - 1);
      var d := Inner(y, c, depth - 1).value;
      WaitedForIsOpen(y, d);
      assert WaitsFor(y, d) == Child(y, d);
    }
  }

  /** Whatever happens, a closed set stays closed, but for those who queue up behind it. */
  lemma EventKeepsClosed(y: System, e: Event, calls: set<CallId>) returns (more: set<CallId>)
    requires Sound(y) && Possible(y, e) && Closed(y, calls)
    ensures calls <= more && Closed(After(y, e), more) && StaysIn(y, After(y, e), calls)
  {
    hide Sound, Closed, StaysIn, WaitsFor, SqliteQueue.Enabled, SqliteQueue.Next;
    more := calls;
    if e.Goes? && e.step.Register? {
      RegisterKeepsClosed(y, y.home[e.step.c], e.step.c, calls);
      more := Joined(y, e.step.c, calls);
    } else {
      if e.Writes? {
        WriterIsOutside(y, calls, e.c, e.depth);
      } else {
        ActorWaitsForNobody(y, e);
        NewcomersAreOutside(y, calls, e.Actor());
      }
      match e
      case Comes(k, c, retries) => TakeKeepsClosed(y, k, Arrive(c, retries), calls);
      case Goes(step) => TakeKeepsClosed(y, y.home[step.c], step, calls);
      case Writes(c, op, _) => TakeKeepsClosed(y, y.home[c], Exec(c, op), calls);
      case Resumes(c) => TakeKeepsClosed(y, y.home[c], Resume(c), calls);
      case Nests(c, k, d, retries) =>
        NestIsTwoSteps(y, c, k, d, retries);
        NewcomersAreOutside(y, calls, d);
        var y1 := Take(y, k, Arrive(d, retries));
        TakeKeepsClosed(y, k, Arrive(d, retries), calls);
        TakeKeepsClosed(y1, y.home[c], Await(c, d), calls);
        StaysThrough(y, y1, After(y, e), calls);
    }
  }

  lemma StaysThrough(y: System, y1: System, y2: System, calls: set<CallId>)
    requires StaysIn(y, y1, calls) && StaysIn(y1, y2, calls)
    ensures StaysIn(y, y2, calls)
  {
    hide CallOf;
  }

  lemma {:induction false} HistoryKeepsClosed(y: System, events: seq<Event>, calls: set<CallId>)
    requires Sound(y) && IsHistory(y, events) && Closed(y, calls)
    ensures StaysIn(y, Finally(y, events), calls)
    decreases |events|
  {
    hide Sound, Closed, CallOf, Possible, After;
    if events != [] {
      var more := EventKeepsClosed(y, events[0], calls);
      EventKeepsSound(y, events[0]);
      HistoryKeepsClosed(After(y, events[0]), events[1..], more);
    }
  }

  // ---------------------------------------------------------------------------
  // Following
  // ---------------------------------------------------------------------------

  /** The call reached from `c` after `n` times asking whom it waits for. */
  function Follow(y: System, c: CallId, n: nat): Option<CallId> {
    if n == 0 then Some(c)
    else match Follow(y, c, n - 1)
      case None => None
      case Some(d) => WaitsFor(y, d)
  }

  /** The same call comes twice: it waits, through others, for itself. */
  ghost predicate Repeats(y: System, c: CallId, i: nat, j: nat) {
    i < j && Follow(y, c, j).Some? && Follow(y, c, i) == Follow(y, c, j)
  }

  /** Following who waits for whom from `c` leads into a cycle. */
  ghost predicate ReachesCycle(y: System, c: CallId) { exists i, j :: Repeats(y, c, i, j) }

  lemma {:induction false} FollowDefined(y: System, c: CallId, n: nat, i: nat)
    requires Follow(y, c, n).Some? && i <= n
    ensures Follow(y, c, i).Some?
  {
    if i < n { FollowDefined(y, c, n - 1, i); }
  }

  lemma {:induction false} FollowFrom(y: System, c: CallId, i: nat, n: nat)
    requires Follow(y, c, i).Some?
    ensures Follow(y, c, i + n) == Follow(y, Follow(y, c, i).value, n)
    decreases n
  {
    if n > 0 { FollowFrom(y, c, i, n - 1); }
  }

  /** The first `n` calls from `c`. */
  function Path(y: System, c: CallId, n: nat): set<CallId> {
    if n == 0 then {}
    else Path(y, c, n - 1) + match Follow(y, c, n - 1) case Some(d) => {d} case None => {}
  }

  lemma {:induction false} OnPath(y: System, c: CallId, n: nat, i: nat)
    requires i < n && Follow(y, c, i).Some?
    ensures Follow(y, c, i).value in Path(y, c, n)
  {
    if i < n - 1 { OnPath(y, c, n - 1, i); }
  }

  lemma {:induction false} IndexOnPath(y: System, c: CallId, n: nat, d: CallId) returns (i: nat)
    requires d in Path(y, c, n)
    ensures i < n && Follow(y, c, i) == Some(d)
  {
    i := n - 1;
    if Follow(y, c, n - 1) != Some(d) { i := IndexOnPath(y, c, n - 1, d); }
  }

  /** A path into a cycle is closed. */
  lemma CycleIsClosed(y: System, c: CallId, i: nat, j: nat)
    requires Repeats(y, c, i, j)
    ensures Follow(y, c, j - 1).Some? && Closed(y, Path(y, c, j)) && c in Path(y, c, j)
  {
    hide WaitsFor;
    FollowDefined(y, c, j, j - 1);
    assert Follow(y, c, 0) == Some(c);
    OnPath(y, c, j, 0);
    forall d | d in Path(y, c, j) ensures WaitsFor(y, d).Some? && WaitsFor(y, d).value in Path(y, c, j) {
      var k := IndexOnPath(y, c, j, d);
      FollowDefined(y, c, j, k + 1);
      assert Follow(y, c, k + 1) == WaitsFor(y, d);
      OnPath(y, c, j, if k + 1 == j then i else k + 1);
    }
  }

  lemma BackOnPath(y: System, c: CallId, n: nat)
    requires Follow(y, c, n).Some? && Follow(y, c, n).value in Path(y, c, n)
    ensures ReachesCycle(y, c)
  {
    var i := IndexOnPath(y, c, n, Follow(y, c, n).value);
    assert Repeats(y, c, i, n);
  }

  /** A path that does not come back is as long as it has calls, and calls are finitely many. */
  lemma {:induction false} PathIsShort(y: System, c: CallId, n: nat)
    requires Sound(y) && c in y.home && !ReachesCycle(y, c)
    requires n > 0 ==> Follow(y, c, n - 1).Some?
    ensures Path(y, c, n) <= y.home.Keys && |Path(y, c, n)| == n
  {
    hide WaitsFor, Sound;
    if n > 0 {
      FollowDefined(y, c, n - 1, if n == 1 then 0 else n - 2);
      PathIsShort(y, c, n - 1);
      var d := Follow(y, c, n - 1).value;
      if d in Path(y, c, n - 1) { BackOnPath(y, c, n - 1); }
      if n > 1 { WaitedForIsOpen(y, Follow(y, c, n - 2).value); }
    }
  }

  lemma SubsetIsSmaller(a: set<CallId>, b: set<CallId>)
    requires a <= b
    ensures |a| <= |b|
  {
    assert a + (b - a) == b;
  }

  /** Off the cycles every path ends, at a call that waits for nobody. */
  lemma PathEnds(y: System, c: CallId, n: nat) returns (end: nat)
    requires Sound(y) && c in y.home && !ReachesCycle(y, c) && Follow(y, c, n).Some?
    ensures Follow(y, c, end).Some? && Follow(y, c, end + 1).None?
    decreases |y.home.Keys| - n
  {
    hide WaitsFor, Sound;
    PathIsShort(y, c, n + 1);
    SubsetIsSmaller(Path(y, c, n + 1), y.home.Keys);
    end := n;
    if Follow(y, c, n + 1).Some? { end := PathEnds(y, c, n + 1); }
  }

  // ---------------------------------------------------------------------------
  // Serving a call that waits for nobody
  // ---------------------------------------------------------------------------

  /** The others are as they were, and wait for whom they did, `f` aside. */
  ghost predicate Beside(y: System, y': System, f: CallId) {
    && Sound(y') && y'.home == y.home
    && forall x :: x in y.home && x != f ==>
      CallOf(y', x) == CallOf(y, x) && Drop(WaitsFor(y', x), f) == Drop(WaitsFor(y, x), f)
  }

  lemma TakeIsBeside(y: System, k: ClientId, step: Step)
    requires Fits(y, k, step) && !step.Arrive? && (step.Register? ==> y.clients[k].entry.None?)
    ensures Beside(y, Take(y, k, step), step.c)
  {
    hide Sound, WaitsFor, CallOf, SqliteQueue.Enabled, SqliteQueue.Next;
    TakeKeepsSound(y, k, step);
    forall x | x in y.home && x != step.c
      ensures CallOf(Take(y, k, step), x) == CallOf(y, x)
      ensures Drop(WaitsFor(Take(y, k, step), x), step.c) == Drop(WaitsFor(y, x), step.c)
    {
      TakeTouchesOne(y, k, step, x);
      TakeBeside(y, k, step, x);
    }
  }

  /** How far a call still is from its end. */
  function Rank(call: Call): nat {
    match call.phase
    case Idle => 4
    case Queued(_, _) => 3
    case Running(_, _, Some(_)) => 2
    case Running(_, _, None) => 1
    case _ => 0
  }

  /** The next step of a call that waits for nobody, on its way to COMMIT. */
  function StepOnward(s: State, f: CallId): Step
    requires f in s.calls
  {
    match s.calls[f].phase
    case Idle => Register(f)
    case Queued(_, _) => Begin(f, true, false)
    case Running(_, _, Some(_)) => Resume(f)
    case _ => Finish(f, Returned(true), false)
  }

  lemma StepOnwardIsEnabled(s: State, f: CallId)
    requires Inv(s) && f in s.calls && !s.calls[f].Finished() && Ahead(s, f).None?
    ensures Enabled(s, StepOnward(s, f)) && (s.calls[f].phase.Idle? ==> s.entry.None?)
  {
    assert Holds(s, f);
    if s.calls[f].phase.Queued? { BeginAtHead(s, f); }
  }

  lemma StepOnwardLeads(s: State, f: CallId)
    requires Inv(s) && f in s.calls && !s.calls[f].Finished() && Ahead(s, f).None?
    requires Enabled(s, StepOnward(s, f)) && (s.calls[f].phase.Idle? ==> s.entry.None?)
    ensures var s' := SqliteQueue.Next(s, StepOnward(s, f));
      && f in s'.calls && Rank(s'.calls[f]) < Rank(s.calls[f])
      && Ahead(s', f).None? && ChildOf(s', f).None?
  {
    hide Inv;
  }

  function Onward(y: System, f: CallId): Event
    requires CallOf(y, f).Some?
  {
    var step := StepOnward(y.clients[y.home[f]], f);
    if step.Resume? then Resumes(f) else Goes(step)
  }

  lemma OnwardIsPossible(y: System, f: CallId)
    requires Sound(y) && CallOf(y, f).Some? && !Ended(y, f) && WaitsFor(y, f).None?
    ensures var e := Onward(y, f);
      && Possible(y, e)
      && CallOf(After(y, e), f).Some? && Rank(CallOf(After(y, e), f).value) < Rank(CallOf(y, f).value)
      && WaitsFor(After(y, e), f).None?
    ensures CallOf(y, f).value.phase.Idle? ==> y.clients[y.home[f]].entry.None?
  {
    hide Inv, SqliteQueue.Enabled, SqliteQueue.Next, Rank;
    var s := y.clients[y.home[f]];
    assert Ahead(s, f).None? by { if Child(y, f).Some? { RunningIsNotBehind(s, f); } }
    StepOnwardIsEnabled(s, f);
    StepOnwardLeads(s, f);
  }

  lemma RunningIsNotBehind(s: State, f: CallId)
    requires ChildOf(s, f).Some?
    ensures Ahead(s, f).None?
  {}

  lemma OnwardIsBeside(y: System, f: CallId)
    requires Sound(y) && CallOf(y, f).Some? && !Ended(y, f) && WaitsFor(y, f).None?
    ensures Possible(y, Onward(y, f)) && Beside(y, After(y, Onward(y, f)), f)
  {
    hide Beside, Sound, WaitsFor;
    OnwardIsPossible(y, f);
    var step := if Onward(y, f).Resumes? then Resume(f) else Onward(y, f).step;
    TakeIsBeside(y, y.home[f], step);
  }

  lemma BesideThrough(y: System, y1: System, y2: System, f: CallId)
    requires Beside(y, y1, f) && Beside(y1, y2, f)
    ensures Beside(y, y2, f)
  {
    hide Sound, WaitsFor, CallOf;
  }

  /** A call that waits for nobody can be served to its end, and nobody else is touched. */
  lemma Serve(y: System, f: CallId) returns (events: seq<Event>)
    requires Sound(y) && CallOf(y, f).Some? && !Ended(y, f) && WaitsFor(y, f).None?
    ensures IsHistory(y, events) && Beside(y, Finally(y, events), f) && Ended(Finally(y, events), f)
    decreases Rank(CallOf(y, f).value)
  {
    hide Sound, WaitsFor, Possible, After, Beside, Onward, CallOf;
    var e := Onward(y, f);
    OnwardIsPossible(y, f);
    OnwardIsBeside(y, f);
    var y1 := After(y, e);
    BesideIsSound(y, y1, f);
    if Ended(y1, f) {
      events := [e];
      assert events[1..] == [];
    } else {
      var rest := Serve(y1, f);
      events := [e] + rest;
      assert events[1..] == rest;
      BesideThrough(y, y1, Finally(y1, rest), f);
    }
  }

  lemma BesideIsSound(y: System, y': System, f: CallId)
    requires Beside(y, y', f)
    ensures Sound(y') && y'.home == y.home
  {}

  // ---------------------------------------------------------------------------
  // Who can get on
  // ---------------------------------------------------------------------------

  /** When the end of a path has been served, the path is the same but for its end. */
  lemma {:induction false} FollowBeside(y: System, y': System, c: CallId, n: nat, i: nat)
    requires Sound(y) && c in y.home && i <= n && Follow(y, c, n).Some? && Follow(y, c, n + 1).None?
    requires Beside(y, y', Follow(y, c, n).value) && Ended(y', Follow(y, c, n).value)
    ensures Follow(y', c, i) == if i < n || n == 0 then Follow(y, c, i) else None
  {
    hide Sound, WaitsFor, CallOf;
    var f := Follow(y, c, n).value;
    if i > 0 {
      FollowBeside(y, y', c, n, i - 1);
      FollowDefined(y, c, n, i - 1);
      FollowDefined(y, c, n, i);
      var d := Follow(y, c, i - 1).value;
      WaitedForIsOpen(y, d);
      assert d != f && (i < n ==> Follow(y, c, i) != Some(f)) by {
        if i < n { FollowDefined(y, c, n, i + 1); }
      }
      if i == n && WaitsFor(y', d).Some? {
        BesideIsSound(y, y', f);
        WaitedForIsOpen(y', d);
      }
    }
  }

  /** Off the cycles the calls ahead can be served one after another, the last of them first. */
  lemma Unblock(y: System, c: CallId, n: nat) returns (events: seq<Event>)
    requires Sound(y) && CallOf(y, c).Some? && !Ended(y, c)
    requires Follow(y, c, n).Some? && Follow(y, c, n + 1).None?
    ensures IsHistory(y, events)
    ensures var y' := Finally(y, events); Sound(y') && CallOf(y', c) == CallOf(y, c) && WaitsFor(y', c).None?
    decreases n
  {
    hide Sound, WaitsFor, Possible, After;
    if n == 0 {
      events := [];
      return;
    }
    var f := Follow(y, c, n).value;
    FollowDefined(y, c, n, n - 1);
    FollowDefined(y, c, n, 1);
    WaitedForIsOpen(y, Follow(y, c, n - 1).value);
    assert f != c;
    var first := Serve(y, f);
    var y1 := Finally(y, first);
    FollowBeside(y, y1, c, n, n - 1);
    FollowBeside(y, y1, c, n, n);
    var rest := Unblock(y1, c, n - 1);
    HistoryConcat(y, first, rest);
    events := first + rest;
  }

  lemma {:induction false} HistoryConcat(y: System, a: seq<Event>, b: seq<Event>)
    requires IsHistory(y, a) && IsHistory(Finally(y, a), b)
    ensures IsHistory(y, a + b) && Finally(y, a + b) == Finally(Finally(y, a), b)
    decreases |a|
  {
    hide Possible, After;
    if a == [] {
      assert a + b == b;
    } else {
      assert (a + b)[0] == a[0] && (a + b)[1..] == a[1..] + b;
      HistoryConcat(After(y, a[0]), a[1..], b);
    }
  }

  /** Nothing that can happen from here on changes the call. */
  ghost predicate Frozen(y: System, c: CallId) {
    forall events :: IsHistory(y, events) ==> CallOf(Finally(y, events), c) == CallOf(y, c)
  }

  /**
    Deadlock, exactly: a call that is queued or running never takes another step, whatever
    happens, if and only if following who waits for whom from it leads into a cycle.
   */
  lemma StuckIffCycle(y: System, c: CallId)
    requires Sound(y) && CallOf(y, c).Some? && CallOf(y, c).value.HasTicket()
    ensures Frozen(y, c) <==> ReachesCycle(y, c)
  {
    hide Sound, WaitsFor, Possible, After, Closed, Onward;
    if ReachesCycle(y, c) {
      var i: nat, j: nat :| Repeats(y, c, i, j);
      CycleIsClosed(y, c, i, j);
      forall events | IsHistory(y, events) ensures CallOf(Finally(y, events), c) == CallOf(y, c) {
        HistoryKeepsClosed(y, events, Path(y, c, j));
      }
    } else {
      var end := PathEnds(y, c, 0);
      var events := Unblock(y, c, end);
      var y1 := Finally(y, events);
      OnwardIsPossible(y1, c);
      var e := Onward(y1, c);
      assert [e][1..] == [] && IsHistory(y1, [e]) && Finally(y1, [e]) == After(y1, e);
      HistoryConcat(y, events, [e]);
      assert CallOf(Finally(y, events + [e]), c) != CallOf(y, c);
    }
  }

  /**
    In every reachable state of any number of clients: the first of a client's queue can never
    move again if and only if it reaches a cycle of calls that wait for one another.
   */
  lemma HeadStuckIffCycle(dbs: map<ClientId, Db>, events: seq<Event>, k: ClientId)
    requires IsHistory(Start(dbs), events)
    ensures var y := Finally(Start(dbs), events);
      k in y.clients && First(y.clients[k]).Some? ==>
        (Frozen(y, First(y.clients[k]).value) <==> ReachesCycle(y, First(y.clients[k]).value))
  {
    hide Frozen, ReachesCycle;
    StartIsSound(dbs);
    HistoryKeepsSound(Start(dbs), events);
    var y := Finally(Start(dbs), events);
    if k in y.clients && First(y.clients[k]).Some? {
      FirstHasTicket(y, k);
      StuckIffCycle(y, First(y.clients[k]).value);
    }
  }

  // ---------------------------------------------------------------------------
  // Which inner calls deadlock
  // ---------------------------------------------------------------------------

  ghost predicate Reaches(y: System, a: CallId, b: CallId) { exists n :: Follow(y, a, n) == Some(b) }

  lemma TakeUntouched(y: System, k: ClientId, step: Step, x: CallId)
    requires Fits(y, k, step) && (step.Arrive? || step.Await?) && x in y.home && x != step.c
    ensures WaitsFor(Take(y, k, step), x) == WaitsFor(y, x)
  {
    hide Inv, SqliteQueue.Enabled, SqliteQueue.Next, Ahead, ChildOf;
    TakeTouchesOne(y, k, step, x);
    if Child(y, x).Some? {
      var d := Child(y, x).value;
      if d != step.c { TakeTouchesOne(y, k, step, d); } else { AwaitLeavesOpen(y.clients[k], step); }
    } else if y.home[x] == k {
      AheadUntouched(y.clients[k], step, x);
    }
  }

  lemma AwaitLeavesOpen(s: State, step: Step)
    requires Enabled(s, step) && step.Await?
    ensures var s' := SqliteQueue.Next(s, step);
      && step.c in s.calls && !s.calls[step.c].Finished()
      && step.c in s'.calls && !s'.calls[step.c].Finished() && ChildOf(s', step.c) == Some(step.d)
  {}

  /** What an inner call adds: its caller waits for it, and it waits for the tail of its client. */
  lemma NestWaits(y: System, c: CallId, k: ClientId, d: CallId, retries: nat)
    requires Sound(y) && Possible(y, Nests(c, k, d, retries))
    ensures var y' := After(y, Nests(c, k, d, retries));
      && Sound(y') && c != d && c in y'.home && y'.home == y.home[d := k] && WaitsFor(y, c) == None
      && WaitsFor(y', c) == Some(d) && WaitsFor(y', d) == Tail(y.clients[k])
      && (forall x :: x in y.home && x != c ==> WaitsFor(y', x) == WaitsFor(y, x))
  {
    hide Sound, WaitsFor, SqliteQueue.Enabled, SqliteQueue.Next;
    EventKeepsSound(y, Nests(c, k, d, retries));
    ActorWaitsForNobody(y, Nests(c, k, d, retries));
    NestIsTwoSteps(y, c, k, d, retries);
    var y1 := Take(y, k, Arrive(d, retries));
    forall x | x in y.home && x != c
      ensures WaitsFor(After(y, Nests(c, k, d, retries)), x) == WaitsFor(y, x)
    {
      TakeUntouched(y, k, Arrive(d, retries), x);
      TakeUntouched(y1, y.home[c], Await(c, d), x);
    }
    TakeUntouched(y1, y.home[c], Await(c, d), d);
    ArrivesBehindTail(y, k, d, retries);
    AwaitsChild(y1, c, d);
  }

  lemma ArrivesBehindTail(y: System, k: ClientId, d: CallId, retries: nat)
    requires Fits(y, k, Arrive(d, retries))
    ensures WaitsFor(Take(y, k, Arrive(d, retries)), d) == Tail(y.clients[k])
    ensures !Ended(Take(y, k, Arrive(d, retries)), d)
  {}

  lemma AwaitsChild(y: System, c: CallId, d: CallId)
    requires c in y.home && d in y.home && c != d && Fits(y, y.home[c], Await(c, d)) && !Ended(y, d)
    ensures WaitsFor(Take(y, y.home[c], Await(c, d)), c) == Some(d)
  {
    TakeTouchesOne(y, y.home[c], Await(c, d), d);
  }

  /** From the tail of a queue the way leads to its head. */
  lemma {:induction false} QueueLeadsToHead(y: System, k: ClientId, t: Ticket)
    requires Sound(y) && k in y.clients && Head(y.clients[k]) <= t < |y.clients[k].owners|
    ensures var s := y.clients[k]; Follow(y, s.owners[t], t - Head(s)) == Some(s.owners[Head(s)])
    decreases t
  {
    hide Ahead, Follow;
    var s := y.clients[k];
    FollowNothing(y, s.owners[t]);
    if t > Head(s) {
      QueueLeadsToHead(y, k, t - 1);
      AheadOfTicket(s, t);
      assert Owned(s, t) && Holds(s, s.owners[t]);
      FollowOnce(y, s.owners[t]);
      FollowFrom(y, s.owners[t], 1, t - 1 - Head(s));
    }
  }

  lemma FollowNothing(y: System, c: CallId)
    ensures Follow(y, c, 0) == Some(c)
  {}

  lemma FollowOnce(y: System, c: CallId)
    ensures Follow(y, c, 1) == WaitsFor(y, c)
  {
    assert Follow(y, c, 0) == Some(c);
  }

  /** Two systems in which everybody but `c` waits for the same: a path is the same until it meets `c`. */
  lemma {:induction false} FollowSame(y: System, y': System, c: CallId, a: CallId, n: nat)
    requires Sound(y) && a in y.home
    requires forall x :: x in y.home && x != c ==> WaitsFor(y', x) == WaitsFor(y, x)
    requires forall i :: 0 <= i < n ==> Follow(y, a, i) != Some(c)
    ensures Follow(y', a, n) == Follow(y, a, n)
  {
    hide Sound, WaitsFor;
    if n > 0 {
      FollowSame(y, y', c, a, n - 1);
      if Follow(y, a, n - 1).Some? { FollowStaysHome(y, a, n - 1); }
    }
  }

  lemma {:induction false} FollowStaysHome(y: System, a: CallId, n: nat)
    requires Sound(y) && a in y.home && Follow(y, a, n).Some?
    ensures Follow(y, a, n).value in y.home
  {
    hide Sound, WaitsFor;
    if n > 0 { WaitedForIsOpen(y, Follow(y, a, n - 1).value); }
  }

  /** A call that waits for nobody is only met at the end of a path. */
  lemma MetAtTheEnd(y: System, c: CallId, a: CallId, n: nat, i: nat)
    requires WaitsFor(y, c) == None && Follow(y, a, n).Some? && i < n
    ensures Follow(y, a, i) != Some(c)
  {
    hide WaitsFor;
    FollowDefined(y, a, n, i + 1);
  }

  /** One round further on, the same call comes again. */
  lemma {:induction false} RepeatsLater(y: System, c: CallId, i: nat, j: nat, n: nat)
    requires Repeats(y, c, i, j)
    ensures Repeats(y, c, i + n, j + n)
  {
    hide WaitsFor;
    if n > 0 {
      RepeatsLater(y, c, i, j, n - 1);
      FollowDefined(y, c, j + n - 1, i + n);
    }
  }

  /** A cycle is reached from a call exactly when it is reached from a call further on. */
  lemma CycleFurtherOn(y: System, c: CallId, n: nat, d: CallId)
    requires Follow(y, c, n) == Some(d)
    ensures ReachesCycle(y, c) <==> ReachesCycle(y, d)
  {
    hide WaitsFor, Follow;
    if ReachesCycle(y, c) {
      var i: nat, j: nat :| Repeats(y, c, i, j);
      RepeatsLater(y, c, i, j, n);
      FollowFrom(y, c, n, i);
      FollowFrom(y, c, n, j);
      assert Repeats(y, d, i, j);
    }
    if ReachesCycle(y, d) {
      var i: nat, j: nat :| Repeats(y, d, i, j);
      FollowFrom(y, c, n, i);
      FollowFrom(y, c, n, j);
      assert Repeats(y, c, n + i, n + j);
    }
  }

  /** A cycle that is there stays there when a call that waited for nobody starts to wait. */
  lemma CycleSurvives(y: System, y': System, c: CallId, a: CallId)
    requires Sound(y) && a in y.home && WaitsFor(y, c) == None && ReachesCycle(y, a)
    requires forall x :: x in y.home && x != c ==> WaitsFor(y', x) == WaitsFor(y, x)
    ensures ReachesCycle(y', a)
  {
    hide Sound, WaitsFor, Follow;
    var i: nat, j: nat :| Repeats(y, a, i, j);
    RepeatsLater(y, a, i, j, 1);
    forall m | 0 <= m < j ensures Follow(y, a, m) != Some(c) { MetAtTheEnd(y, c, a, j, m); }
    FollowSame(y, y', c, a, i);
    FollowSame(y, y', c, a, j);
    assert Repeats(y', a, i, j);
  }

  /** With the tail in between, an inner call leads to the head of the queue it joins. */
  lemma NestLeadsToHead(y: System, c: CallId, k: ClientId, d: CallId, retries: nat) returns (n: nat)
    requires Sound(y) && Possible(y, Nests(c, k, d, retries)) && First(y.clients[k]).Some?
    ensures n >= 2 && Follow(After(y, Nests(c, k, d, retries)), c, n) == First(y.clients[k])
  {
    hide Sound, WaitsFor, Possible, After, Follow;
    NestWaits(y, c, k, d, retries);
    PossibleNest(y, c, k, d, retries);
    var y', s := After(y, Nests(c, k, d, retries)), y.clients[k];
    TailOfQueue(y, k);
    var tail, m := Tail(s).value, |s.owners| - 1 - Head(s);
    QueueLeadsToHead(y, k, |s.owners| - 1);
    forall i | 0 <= i < m ensures Follow(y, tail, i) != Some(c) { MetAtTheEnd(y, c, tail, m, i); }
    FollowSame(y, y', c, tail, m);
    TwoSteps(y', c, d, tail);
    FollowFrom(y', c, 2, m);
    n := 2 + m;
  }

  lemma PossibleNest(y: System, c: CallId, k: ClientId, d: CallId, retries: nat)
    requires Possible(y, Nests(c, k, d, retries))
    ensures k in y.clients && c in y.home && d !in y.home
  {}

  lemma TailOfQueue(y: System, k: ClientId)
    requires Sound(y) && k in y.clients
    ensures var s := y.clients[k];
      if First(s).None? then Tail(s).None?
      else Tail(s) == Some(s.owners[|s.owners| - 1]) && Tail(s).value in y.home && First(s).value in y.home
  {
    var s := y.clients[k];
    if First(s).Some? { assert Owned(s, |s.owners| - 1) && Owned(s, Head(s)); }
  }

  lemma TwoSteps(y: System, c: CallId, d: CallId, e: CallId)
    requires WaitsFor(y, c) == Some(d) && WaitsFor(y, d) == Some(e)
    ensures Follow(y, c, 2) == Some(e)
  {
    FollowOnce(y, c);
  }

  /** The end of the only path from `c`. */
  lemma OneStep(y: System, c: CallId, d: CallId)
    requires c != d && WaitsFor(y, c) == Some(d) && WaitsFor(y, d) == None
    ensures !ReachesCycle(y, c)
  {
    hide WaitsFor, Follow;
    FollowNothing(y, c);
    FollowOnce(y, c);
    if ReachesCycle(y, c) {
      var i: nat, j: nat :| Repeats(y, c, i, j);
      if j >= 2 { FollowDefined(y, c, j, 2); OneStepEnds(y, c); }
    }
  }

  lemma OneStepEnds(y: System, c: CallId)
    requires WaitsFor(y, c).Some? && WaitsFor(y, WaitsFor(y, c).value) == None
    ensures Follow(y, c, 2) == None
  {
    FollowOnce(y, c);
  }

  /**
    Which inner calls deadlock, exactly: one on a client whose queue is not empty and whose head
    waits, through any number of others, for the very call that makes it, or is stuck already.
   */
  lemma NestingDeadlocks(y: System, c: CallId, k: ClientId, d: CallId, retries: nat)
    requires Sound(y) && Possible(y, Nests(c, k, d, retries))
    ensures k in y.clients && (ReachesCycle(After(y, Nests(c, k, d, retries)), c) <==>
      (First(y.clients[k]).Some?
      && (Reaches(y, First(y.clients[k]).value, c) || ReachesCycle(y, First(y.clients[k]).value))))
  {
    hide Sound, WaitsFor, Possible, After, Follow, Reaches, ReachesCycle;
    NestWaits(y, c, k, d, retries);
    PossibleNest(y, c, k, d, retries);
    TailOfQueue(y, k);
    var y', s := After(y, Nests(c, k, d, retries)), y.clients[k];
    if First(s).None? {
      OneStep(y', c, d);
    } else {
      var n := NestLeadsToHead(y, c, k, d, retries);
      HeadDecides(y, y', c, First(s).value, n);
    }
  }

  /** A call that starts to wait and so reaches `h`: it is in a cycle if `h` reached it, or one already. */
  lemma HeadDecides(y: System, y': System, c: CallId, h: CallId, n: nat)
    requires Sound(y) && h in y.home && WaitsFor(y, c) == None && n >= 1 && Follow(y', c, n) == Some(h)
    requires forall x :: x in y.home && x != c ==> WaitsFor(y', x) == WaitsFor(y, x)
    ensures ReachesCycle(y', c) <==> Reaches(y, h, c) || ReachesCycle(y, h)
  {
    hide Sound, WaitsFor, Follow, ReachesCycle;
    CycleFurtherOn(y', c, n, h);
    if Reaches(y, h, c) {
      var m: nat :| Follow(y, h, m) == Some(c);
      forall i | 0 <= i < m ensures Follow(y, h, i) != Some(c) { MetAtTheEnd(y, c, h, m, i); }
      FollowSame(y, y', c, h, m);
      FollowFrom(y', c, n, m);
      RoundTrip(y', c, n + m);
    } else if ReachesCycle(y, h) {
      CycleSurvives(y, y', c, h);
    } else if ReachesCycle(y', h) {
      CycleIsOld(y, y', c, h);
    }
  }

  /** Coming back to `c` is a cycle. */
  lemma RoundTrip(y: System, c: CallId, n: nat)
    requires n >= 1 && Follow(y, c, n) == Some(c)
    ensures ReachesCycle(y, c)
  {
    assert Follow(y, c, 0) == Some(c) && Repeats(y, c, 0, n);
  }

  lemma CycleIsOld(y: System, y': System, c: CallId, h: CallId)
    requires Sound(y) && h in y.home && !Reaches(y, h, c) && ReachesCycle(y', h)
    requires forall x :: x in y.home && x != c ==> WaitsFor(y', x) == WaitsFor(y, x)
    ensures ReachesCycle(y, h)
  {
    hide Sound, WaitsFor, Follow;
    var i: nat, j: nat :| Repeats(y', h, i, j);
    FollowSame(y, y', c, h, i);
    FollowSame(y, y', c, h, j);
    assert Repeats(y, h, i, j);
  }

  /** A second name on the client of the very call that makes it: stuck at once, and for ever. */
  lemma SecondNameWaitsOnItself(y: System, c: CallId, d: CallId, retries: nat)
    requires Sound(y) && c in y.home && Possible(y, Nests(c, y.home[c], d, retries))
    ensures var y' := After(y, Nests(c, y.home[c], d, retries)); ReachesCycle(y', c) && Frozen(y', c)
  {
    hide Sound, WaitsFor, After, ReachesCycle, Frozen, Follow;
    RunsFirst(y, c, y.home[c], d, retries);
    NestTouches(y, c, y.home[c], d, retries);
    FollowNothing(y, c);
    NestingDeadlocks(y, c, y.home[c], d, retries);
    EventKeepsSound(y, Nests(c, y.home[c], d, retries));
    StuckIffCycle(After(y, Nests(c, y.home[c], d, retries)), c);
  }

  /** Whoever makes an inner call is the first of its own queue. */
  lemma RunsFirst(y: System, c: CallId, k: ClientId, d: CallId, retries: nat)
    requires Sound(y) && Possible(y, Nests(c, k, d, retries))
    ensures c in y.home && y.home[c] in y.clients && First(y.clients[y.home[c]]) == Some(c)
  {
    assert Holds(y.clients[y.home[c]], c);
  }

  /** An inner call changes its caller and adds itself; the queues have the heads they had. */
  lemma NestTouches(y: System, c: CallId, k: ClientId, d: CallId, retries: nat)
    requires Sound(y) && Possible(y, Nests(c, k, d, retries))
    ensures var y' := After(y, Nests(c, k, d, retries));
      && c in y.home && d !in y.home && y'.home == y.home[d := k]
      && CallOf(y', c).Some? && CallOf(y', c).value.HasTicket() && Child(y', c) == Some(d)
      && (forall x :: x in y.home && x != c ==> CallOf(y', x) == CallOf(y, x) && Child(y', x) == Child(y, x))
      && (forall j :: j in y.clients ==> j in y'.clients && First(y'.clients[j]) == First(y.clients[j]))
  {
    hide Sound, CallOf, Child, First, SqliteQueue.Enabled, SqliteQueue.Next, Fits;
    NestIsTwoSteps(y, c, k, d, retries);
    NestCanAwait(y, c, k, d, retries);
    var y1 := Take(y, k, Arrive(d, retries));
    forall x | x in y.home && x != c
      ensures var y' := Take(y1, y.home[c], Await(c, d)); CallOf(y', x) == CallOf(y, x) && Child(y', x) == Child(y, x)
    {
      TakeTouchesOne(y, k, Arrive(d, retries), x);
      TakeTouchesOne(y1, y.home[c], Await(c, d), x);
    }
    FirstUntouched(y.clients[k], Arrive(d, retries));
    FirstUntouched(y1.clients[y.home[c]], Await(c, d));
    AwaitingHasTicket(y1, y.home[c], c, d);
  }

  lemma AwaitingHasTicket(y: System, k: ClientId, c: CallId, d: CallId)
    requires Fits(y, k, Await(c, d))
    ensures var y' := Take(y, k, Await(c, d));
      CallOf(y', c).Some? && CallOf(y', c).value.HasTicket() && Child(y', c) == Some(d)
  {
    hide Inv, AtHome, ChildrenAreCalls;
  }

  /**
    Two clients and no second name: c awaits a call on h's client, then h one on c's. Neither
    waits for a call on a client of its own, and neither ever moves again.
   */
  lemma CrossedCallsDeadlock(y: System, c: CallId, c': CallId, h: CallId, h': CallId, retries: nat)
    requires Sound(y) && c in y.home && h in y.home && y.home[c] != y.home[h]
    requires Possible(y, Nests(c, y.home[h], c', retries)) && First(y.clients[y.home[h]]) == Some(h)
    requires Possible(After(y, Nests(c, y.home[h], c', retries)), Nests(h, y.home[c], h', retries))
    ensures var z := After(After(y, Nests(c, y.home[h], c', retries)), Nests(h, y.home[c], h', retries));
      && Frozen(z, c) && Frozen(z, h)
      && Child(z, c) == Some(c') && Child(z, h) == Some(h')
      && z.home[c'] != z.home[c] && z.home[h'] != z.home[h]
  {
    hide Sound, WaitsFor, After, Possible, ReachesCycle, Frozen, Follow, CallOf, Child;
    var y1 := After(y, Nests(c, y.home[h], c', retries));
    var z := After(y1, Nests(h, y.home[c], h', retries));
    EventKeepsSound(y, Nests(c, y.home[h], c', retries));
    EventKeepsSound(y1, Nests(h, y.home[c], h', retries));
    RunsFirst(y, c, y.home[h], c', retries);
    NestTouches(y, c, y.home[h], c', retries);
    NestTouches(y1, h, y.home[c], h', retries);
    var n := NestLeadsToHead(y, c, y.home[h], c', retries);
    NestingDeadlocks(y1, h, y.home[c], h', retries);
    assert Reaches(y1, c, h);
    NestWaits(y1, h, y.home[c], h', retries);
    forall i | 0 <= i < n ensures Follow(y1, c, i) != Some(h) { MetAtTheEnd(y1, h, c, n, i); }
    FollowSame(y1, z, h, c, n);
    CycleFurtherOn(z, c, n, h);
    StuckIffCycle(z, c);
    StuckIffCycle(z, h);
  }

  // ---------------------------------------------------------------------------
  // Such a state is reached
  // ---------------------------------------------------------------------------

  /** A call comes to an idle client and begins. */
  function Opens(k: ClientId, c: CallId): seq<Event> {
    [Comes(k, c, 0), Goes(Register(c)), Goes(Begin(c, true, false))]
  }

  lemma OneEvent(y: System, e: Event, rest: seq<Event>)
    requires Possible(y, e) && IsHistory(After(y, e), rest)
    ensures IsHistory(y, [e] + rest) && Finally(y, [e] + rest) == Finally(After(y, e), rest)
  {
    assert ([e] + rest)[1..] == rest;
  }

  /** The client where one call runs, and nothing else ever was. */
  function Occupied(db: Db, c: CallId): State {
    State(map[c := Call(0, 1, Running(0, [], None))], Some(0), {}, db, Some(db), [c], [0], [])
  }

  lemma OpensAt(y: System, k: ClientId, c: CallId, db: Db)
    requires k in y.clients && y.clients[k] == Init(db) && c !in y.home
    ensures IsHistory(y, Opens(k, c))
    ensures Finally(y, Opens(k, c)) == System(y.clients[k := Occupied(db, c)], y.home[c := k])
  {
    var y1 := After(y, Comes(k, c, 0));
    var y2 := After(y1, Goes(Register(c)));
    var y3 := After(y2, Goes(Begin(c, true, false)));
    assert IsHistory(y3, []) && Finally(y3, []) == y3;
    OneEvent(y2, Goes(Begin(c, true, false)), []);
    OneEvent(y1, Goes(Register(c)), [Goes(Begin(c, true, false))] + []);
    OneEvent(y, Comes(k, c, 0), [Goes(Register(c))] + ([Goes(Begin(c, true, false))] + []));
    assert Opens(k, c) == [Comes(k, c, 0)] + ([Goes(Register(c))] + ([Goes(Begin(c, true, false))] + []));
    assert y3.clients[k] == Occupied(db, c);
  }

  const TWO_EMPTY: map<ClientId, Db> := map[0 := map[], 1 := map[]]

  /** One call on each of two clients. */
  function Both(): System {
    System(map[0 := Occupied(map[], 1), 1 := Occupied(map[], 2)], map[1 := 0, 2 := 1])
  }

  lemma BothOpen()
    ensures IsHistory(Start(TWO_EMPTY), Opens(0, 1) + Opens(1, 2))
    ensures Finally(Start(TWO_EMPTY), Opens(0, 1) + Opens(1, 2)) == Both()
  {
    hide IsHistory, Finally, Opens, Occupied;
    var y := Start(TWO_EMPTY);
    OpensAt(y, 0, 1, map[]);
    var y1 := Finally(y, Opens(0, 1));
    OpensAt(y1, 1, 2, map[]);
    HistoryConcat(y, Opens(0, 1), Opens(1, 2));
    assert Finally(y1, Opens(1, 2)) == Both();
  }

  lemma BothCanCross()
    ensures Possible(Both(), Nests(1, 1, 3, 0)) && First(Both().clients[1]) == Some(2)
    ensures Possible(After(Both(), Nests(1, 1, 3, 0)), Nests(2, 0, 4, 0)) && First(Both().clients[0]) == Some(1)
  {}

  function Crossing(): seq<Event> { Opens(0, 1) + Opens(1, 2) + [Nests(1, 1, 3, 0), Nests(2, 0, 4, 0)] }

  /** From two empty databases: run(A) { run(B) } beside run(B) { run(A) } stop each other for ever. */
  lemma CrossedCallsHappen()
    ensures IsHistory(Start(TWO_EMPTY), Crossing())
    ensures var z := Finally(Start(TWO_EMPTY), Crossing());
      && Frozen(z, 1) && Frozen(z, 2)
      && Child(z, 1) == Some(3) && Child(z, 2) == Some(4) && z.home == map[1 := 0, 2 := 1, 3 := 1, 4 := 0]
  {
    hide IsHistory, Finally, Frozen, Opens, After, Possible, Sound, Child, Occupied, First, Start;
    var y := Both();
    BothOpen();
    StartIsSound(TWO_EMPTY);
    HistoryKeepsSound(Start(TWO_EMPTY), Opens(0, 1) + Opens(1, 2));
    BothCanCross();
    var y1 := After(y, Nests(1, 1, 3, 0));
    var z := After(y1, Nests(2, 0, 4, 0));
    CrossedCallsDeadlock(y, 1, 3, 2, 4, 0);
    EventKeepsSound(y, Nests(1, 1, 3, 0));
    NestTouches(y, 1, 1, 3, 0);
    NestTouches(y1, 2, 0, 4, 0);
    NoEvents(z);
    OneEvent(y1, Nests(2, 0, 4, 0), []);
    assert [Nests(2, 0, 4, 0)] + [] == [Nests(2, 0, 4, 0)];
    OneEvent(y, Nests(1, 1, 3, 0), [Nests(2, 0, 4, 0)]);
    assert [Nests(1, 1, 3, 0)] + [Nests(2, 0, 4, 0)] == [Nests(1, 1, 3, 0), Nests(2, 0, 4, 0)];
    HistoryConcat(Start(TWO_EMPTY), Opens(0, 1) + Opens(1, 2), [Nests(1, 1, 3, 0), Nests(2, 0, 4, 0)]);
  }

  lemma NoEvents(y: System)
    ensures IsHistory(y, []) && Finally(y, []) == y
  {}
}
