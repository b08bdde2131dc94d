/**
  getOrSet of CacheService as a step machine: each step is what one call does between two awaits,
  or a change of the store from outside.
 */
module SingleFlight {
  import opened Base

  type Id = nat

  /** A value as JSON keeps it; None is null, which a lookup takes for a miss. */
  type Value = Option<int>

  datatype Outcome = Returns(value: Value) | Throws(error: int)

  datatype Role = Hit | Leader | Joiner(leader: Id)

  datatype Call =
    | Reading(key: string)
    | Read(key: string, cached: Value)
    | Leading(key: string)
    | Storing(key: string, value: Value)
    | Settled(key: string, outcome: Outcome)
    | Joining(key: string, leader: Id)
    | Done(key: string, outcome: Outcome, role: Role)
  {
    /** The factory, or the write of its value, is still running. */
    predicate InFlight() { Leading? || Storing? }

    /** A leader whose `finally` has not run. */
    predicate Unfinished() { InFlight() || Settled? }

    /** The promise it made, once settled. */
    predicate HasOutcome() { Settled? || (Done? && role == Leader) }
  }

  datatype State = State(calls: map<Id, Call>, pending: map<string, Id>, store: map<string, Value>)

  datatype Step =
    | Start(c: Id, key: string)
    | Lookup(c: Id)
    | Resume(c: Id)
    | FactoryReturns(c: Id, value: Value)
    | FactoryThrows(c: Id, error: int)
    | Stored(c: Id)
    | StoreFails(c: Id, error: int)
    | Finish(c: Id)
    | Wake(c: Id)
    | Put(key: string, value: Value)
    | Drop(key: string)
    | Destroy

  const EMPTY := State(map[], map[], map[])

  predicate Enabled(s: State, step: Step) {
    match step
    case Start(c, _) => c !in s.calls
    case Lookup(c) => c in s.calls && s.calls[c].Reading?
    case Resume(c) => c in s.calls && s.calls[c].Read?
    case FactoryReturns(c, _) => c in s.calls && s.calls[c].Leading?
    case FactoryThrows(c, _) => c in s.calls && s.calls[c].Leading?
    case Stored(c) => c in s.calls && s.calls[c].Storing?
    case StoreFails(c, _) => c in s.calls && s.calls[c].Storing?
    case Finish(c) => c in s.calls && s.calls[c].Settled?
    case Wake(c) => c in s.calls && s.calls[c].Joining?
      && s.calls[c].leader in s.calls && s.calls[s.calls[c].leader].HasOutcome()
    case _ => true
  }

  function Become(s: State, c: Id, call: Call): State { s.(calls := s.calls[c := call]) }

  function Next(s: State, step: Step): State
    requires Enabled(s, step)
  {
    match step
    case Start(c, key) => Become(s, c, Reading(key))
    case Lookup(c) =>
      var key := s.calls[c].key;
      Become(s, c, Read(key, if key in s.store then s.store[key] else None))
    case Resume(c) =>
      var key := s.calls[c].key;
      if s.calls[c].cached.Some? then Become(s, c, Done(key, Returns(s.calls[c].cached), Hit))
      else if key in s.pending then Become(s, c, Joining(key, s.pending[key]))
      else Become(s, c, Leading(key)).(pending := s.pending[key := c])
    case FactoryReturns(c, value) => Become(s, c, Storing(s.calls[c].key, value))
    case FactoryThrows(c, error) => Become(s, c, Settled(s.calls[c].key, Throws(error)))
    case Stored(c) =>
      var key, value := s.calls[c].key, s.calls[c].value;
      Become(s, c, Settled(key, Returns(value))).(store := s.store[key := value])
    case StoreFails(c, error) => Become(s, c, Settled(s.calls[c].key, Throws(error)))
    case Finish(c) =>
      var key := s.calls[c].key;
      Become(s, c, Done(key, s.calls[c].outcome, Leader)).(pending := s.pending - {key})
    case Wake(c) =>
      var leader := s.calls[c].leader;
      Become(s, c, Done(s.calls[c].key, s.calls[leader].outcome, Joiner(leader)))
    case Put(key, value) => s.(store := s.store[key := value])
    case Drop(key) => s.(store := s.store - {key})
    case Destroy => s.(pending := map[])
  }

  // ---------------------------------------------------------------------------
  // Invariant
  // ---------------------------------------------------------------------------

  /** The pending entry of a key is its one unfinished leader. */
  ghost predicate PendingIsLeader(s: State) {
    && (forall c :: c in s.calls && s.calls[c].Unfinished() ==>
      s.calls[c].key in s.pending && s.pending[s.calls[c].key] == c)
    && (forall key :: key in s.pending ==>
      s.pending[key] in s.calls && s.calls[s.pending[key]].Unfinished() && s.calls[s.pending[key]].key == key)
  }

  /** Joiners wait for, and have taken the outcome of, a leader of their own key. */
  ghost predicate JoinersFollow(s: State) {
    && (forall c :: c in s.calls && s.calls[c].Joining? ==>
      var l := s.calls[c].leader;
      l in s.calls && s.calls[l].key == s.calls[c].key && (s.calls[l].Unfinished() || s.calls[l].HasOutcome()))
    && (forall c :: c in s.calls && s.calls[c].Done? && s.calls[c].role.Joiner? ==>
      var l := s.calls[c].role.leader;
      l in s.calls && s.calls[l].key == s.calls[c].key && s.calls[l].HasOutcome()
      && s.calls[l].outcome == s.calls[c].outcome)
  }

  ghost predicate Inv(s: State) { PendingIsLeader(s) && JoinersFollow(s) }

  /** A call moves on, and leads after as it did before. */
  lemma MoveKeepsPending(s: State, c: Id, call: Call)
    requires PendingIsLeader(s)
    requires if c in s.calls then call.key == s.calls[c].key && (call.Unfinished() <==> s.calls[c].Unfinished())
      else !call.Unfinished()
    ensures PendingIsLeader(Become(s, c, call))
  {}

  lemma LeadingKeepsPending(s: State, c: Id)
    requires PendingIsLeader(s) && c in s.calls && !s.calls[c].Unfinished() && s.calls[c].key !in s.pending
    ensures var k := s.calls[c].key; PendingIsLeader(Become(s, c, Leading(k)).(pending := s.pending[k := c]))
  {}

  lemma FinishKeepsPending(s: State, c: Id)
    requires PendingIsLeader(s) && c in s.calls && s.calls[c].Settled?
    ensures PendingIsLeader(Next(s, Finish(c)))
  {}

  lemma StepKeepsPending(s: State, step: Step)
    requires PendingIsLeader(s) && Enabled(s, step) && !step.Destroy?
    ensures PendingIsLeader(Next(s, step))
  {
    hide PendingIsLeader;
    if step.Put? || step.Drop? {
      StoreKeepsPending(s, Next(s, step));
    } else if step.Finish? {
      FinishKeepsPending(s, step.c);
    } else if step.Resume? && s.calls[step.c].cached.None? && s.calls[step.c].key !in s.pending {
      LeadingKeepsPending(s, step.c);
    } else {
      var next := Next(s, step);
      MoveKeepsPending(s, step.c, next.calls[step.c]);
      StoreKeepsPending(Become(s, step.c, next.calls[step.c]), next);
    }
  }

  lemma StoreKeepsPending(s: State, t: State)
    requires PendingIsLeader(s) && t.calls == s.calls && t.pending == s.pending
    ensures PendingIsLeader(t)
  {}

  /** A call moves on without letting down those who joined it. */
  lemma MoveKeepsJoiners(s: State, c: Id, call: Call)
    requires JoinersFollow(s)
    requires c in s.calls ==>
      call.key == s.calls[c].key
      && (s.calls[c].Unfinished() || s.calls[c].HasOutcome() ==> call.Unfinished() || call.HasOutcome())
      && (s.calls[c].HasOutcome() ==> call.HasOutcome() && call.outcome == s.calls[c].outcome)
    requires call.Joining? ==>
      call.leader in s.calls && call.leader != c && s.calls[call.leader].key == call.key
      && (s.calls[call.leader].Unfinished() || s.calls[call.leader].HasOutcome())
    requires call.Done? && call.role.Joiner? ==>
      call.role.leader in s.calls && call.role.leader != c && s.calls[call.role.leader].key == call.key
      && s.calls[call.role.leader].HasOutcome() && s.calls[call.role.leader].outcome == call.outcome
    ensures JoinersFollow(Become(s, c, call))
  {}

  lemma {:induction false} StepKeepsJoiners(s: State, step: Step)
    requires Inv(s) && Enabled(s, step)
    ensures JoinersFollow(Next(s, step))
  {
    if !(step.Put? || step.Drop? || step.Destroy?) {
      var next := Next(s, step);
      MoveKeepsJoiners(s, step.c, next.calls[step.c]) by { hide JoinersFollow; }
      assert next.calls == Become(s, step.c, next.calls[step.c]).calls;
    }
  }

  // ---------------------------------------------------------------------------
  // Runs
  // ---------------------------------------------------------------------------

  predicate IsRun(s: State, steps: seq<Step>)
    decreases |steps|
  {
    steps == [] || (Enabled(s, steps[0]) && IsRun(Next(s, steps[0]), steps[1..]))
  }

  function Final(s: State, steps: seq<Step>): State
    requires IsRun(s, steps)
    decreases |steps|
  {
    if steps == [] then s else Final(Next(s, steps[0]), steps[1..])
  }

  predicate NoDestroy(steps: seq<Step>) { Destroy !in steps }

  lemma {:induction false} RunKeepsInv(s: State, steps: seq<Step>)
    requires Inv(s) && IsRun(s, steps) && NoDestroy(steps)
    ensures Inv(Final(s, steps))
    decreases |steps|
  {
    if steps != [] {
      assert steps[0] in steps;
      StepKeepsPending(s, steps[0]);
      StepKeepsJoiners(s, steps[0]);
      RunKeepsInv(Next(s, steps[0]), steps[1..]);
    }
  }

  /**
    After any interleaving without destroy: per key at most one factory is in flight, `pending`
    holds a key exactly while its leader has not finished, and every joiner that is through has
    the outcome of a leader of its key.
   */
  lemma SingleFlightHolds(steps: seq<Step>)
    requires IsRun(EMPTY, steps) && NoDestroy(steps)
    ensures var s := Final(EMPTY, steps);
      && OneInFlight(s)
      && (forall key :: key in s.pending <==>
        exists c :: c in s.calls && s.calls[c].Unfinished() && s.calls[c].key == key)
      && (forall c :: c in s.calls && s.calls[c].Done? && s.calls[c].role.Joiner? ==>
        s.calls[c].role.leader in s.calls && s.calls[s.calls[c].role.leader].HasOutcome()
        && s.calls[s.calls[c].role.leader].outcome == s.calls[c].outcome)
  {
    RunKeepsInv(EMPTY, steps);
  }

  /** A leader that finishes removes its own entry, and its key only. */
  lemma LeaderDeletesItsOwn(s: State, c: Id)
    requires Inv(s) && Enabled(s, Finish(c))
    ensures s.calls[c].key in s.pending && s.pending[s.calls[c].key] == c
    ensures forall key :: key in s.pending && s.pending[key] != c ==> key in Next(s, Finish(c)).pending
  {}

  /** Nobody waits for a call that cannot move: each unfinished call has a step, or its leader has. */
  lemma SomeoneMoves(s: State, c: Id)
    requires Inv(s) && c in s.calls && !s.calls[c].Done?
    ensures exists d, step ::
      && (d == c || (s.calls[c].Joining? && d == s.calls[c].leader)) && d in s.calls
      && Enabled(s, step) && d in Next(s, step).calls && Next(s, step).calls[d] != s.calls[d]
  {
    var call := s.calls[c];
    if call.Joining? && !s.calls[call.leader].HasOutcome() {
      LeaderMoves(s, call.leader);
    } else if call.Joining? {
      assert Enabled(s, Wake(c)) && Next(s, Wake(c)).calls[c] != call;
    } else if call.Reading? {
      assert Enabled(s, Lookup(c)) && Next(s, Lookup(c)).calls[c] != call;
    } else if call.Read? {
      assert Enabled(s, Resume(c)) && Next(s, Resume(c)).calls[c] != call;
    } else {
      LeaderMoves(s, c);
    }
  }

  lemma LeaderMoves(s: State, c: Id)
    requires c in s.calls && s.calls[c].Unfinished()
    ensures exists step :: Enabled(s, step) && c in Next(s, step).calls && Next(s, step).calls[c] != s.calls[c]
  {
    var call := s.calls[c];
    var step := if call.Leading? then FactoryThrows(c, 0) else if call.Storing? then Stored(c) else Finish(c);
    assert Enabled(s, step) && Next(s, step).calls[c] != call;
  }

  // ---------------------------------------------------------------------------
  // Destroy
  // ---------------------------------------------------------------------------

  function Lead(c: Id, k: string): seq<Step> { [Start(c, k), Lookup(c), Resume(c)] }

  /** A call that finds neither a value nor a pending entry leads. */
  lemma Leads(s: State, c: Id, k: string)
    requires c !in s.calls && k !in s.pending && k !in s.store
    ensures IsRun(s, Lead(c, k))
    ensures Final(s, Lead(c, k)) == State(s.calls[c := Leading(k)], s.pending[k := c], s.store)
  {
    hide IsRun, Final;
    var s1 := Next(s, Start(c, k));
    var s2 := Next(s1, Lookup(c));
    RunNothing(Next(s2, Resume(c)));
    RunOne(s2, Resume(c), []);
    assert [Resume(c)] + [] == [Resume(c)];
    RunOne(s1, Lookup(c), [Resume(c)]);
    assert [Lookup(c)] + [Resume(c)] == [Lookup(c), Resume(c)];
    RunOne(s, Start(c, k), [Lookup(c), Resume(c)]);
    assert [Start(c, k)] + [Lookup(c), Resume(c)] == Lead(c, k);
    assert Next(s2, Resume(c)).calls == s.calls[c := Leading(k)];
  }

  function Fail(c: Id): seq<Step> { [FactoryThrows(c, 0), Finish(c)] }

  lemma Fails(s: State, c: Id)
    requires c in s.calls && s.calls[c].Leading?
    ensures IsRun(s, Fail(c))
    ensures var k := s.calls[c].key;
      Final(s, Fail(c)) == State(s.calls[c := Done(k, Throws(0), Leader)], s.pending - {k}, s.store)
  {
    hide IsRun, Final;
    var s1 := Next(s, FactoryThrows(c, 0));
    RunNothing(Next(s1, Finish(c)));
    RunOne(s1, Finish(c), []);
    assert [Finish(c)] + [] == [Finish(c)];
    RunOne(s, FactoryThrows(c, 0), [Finish(c)]);
    assert [FactoryThrows(c, 0)] + [Finish(c)] == Fail(c);
    assert Next(s1, Finish(c)).calls == s.calls[c := Done(s.calls[c].key, Throws(0), Leader)];
  }

  lemma RunNothing(s: State)
    ensures IsRun(s, []) && Final(s, []) == s
  {}

  lemma RunOne(s: State, step: Step, rest: seq<Step>)
    requires Enabled(s, step) && IsRun(Next(s, step), rest)
    ensures IsRun(s, [step] + rest) && Final(s, [step] + rest) == Final(Next(s, step), rest)
  {
    assert ([step] + rest)[1..] == rest;
  }

  lemma {:induction false} RunConcat(s: State, a: seq<Step>, b: seq<Step>)
    requires IsRun(s, a) && IsRun(Final(s, a), b)
    ensures IsRun(s, a + b) && Final(s, a + b) == Final(Final(s, a), b)
    decreases |a|
  {
    if a == [] {
      assert a + b == b;
    } else {
      RunConcat(Next(s, a[0]), a[1..], b);
      assert (a + b)[1..] == a[1..] + b;
    }
  }

  /** At most one factory in flight per key. */
  ghost predicate OneInFlight(s: State) {
    forall c, d :: c in s.calls && s.calls[c].InFlight() && d in s.calls && s.calls[d].InFlight() ==>
      s.calls[c].key == s.calls[d].key ==> c == d
  }

  /** And so it stays, whatever happens but another destroy. */
  ghost predicate SingleFromHere(s: State) {
    forall steps :: IsRun(s, steps) && NoDestroy(steps) ==> OneInFlight(Final(s, steps))
  }

  /** A number that no call has. */
  lemma NewId(calls: set<Id>) returns (n: Id)
    ensures forall c :: c in calls ==> c < n
  {
    n := 0;
    if calls != {} {
      var c :| c in calls;
      var m := NewId(calls - {c});
      n := if m > c then m else c + 1;
      assert forall d :: d in calls ==> d in calls - {c} || d == c;
    }
  }

  /** A call in flight whose entry is gone: the next lookup that misses starts a second factory. */
  lemma InFlightAfterDestroy(s: State, c: Id, n: Id)
    requires c in s.calls && s.calls[c].InFlight() && n !in s.calls && s.pending == map[]
    ensures !SingleFromHere(s)
  {
    hide IsRun, Final, Lead;
    var k := s.calls[c].key;
    var s1 := Next(s, Drop(k));
    Leads(s1, n, k);
    RunOne(s, Drop(k), Lead(n, k));
    LeadIsNoDestroy(n, k);
    var t := Final(s, [Drop(k)] + Lead(n, k));
    assert t.calls[c].InFlight() && t.calls[n].InFlight() && c != n;
  }

  /** A leader about to finish removes the entry of the call that took its place, and a third one starts. */
  lemma SettledAfterDestroy(s: State, c: Id, n: Id)
    requires c in s.calls && s.calls[c].Settled? && n !in s.calls && n + 1 !in s.calls && s.pending == map[]
    ensures !SingleFromHere(s)
  {
    hide IsRun, Final, Lead;
    var k := s.calls[c].key;
    var s1 := Next(s, Drop(k));
    Leads(s1, n, k);
    var s2 := Final(s1, Lead(n, k));
    var s3 := Next(s2, Finish(c));
    Leads(s3, n + 1, k);
    RunOne(s2, Finish(c), Lead(n + 1, k));
    var tail := [Finish(c)] + Lead(n + 1, k);
    RunConcat(s1, Lead(n, k), tail);
    RunOne(s, Drop(k), Lead(n, k) + tail);
    LeadIsNoDestroy(n, k);
    LeadIsNoDestroy(n + 1, k);
    var t := Final(s, [Drop(k)] + (Lead(n, k) + tail));
    assert t.calls[n] == Leading(k) && t.calls[n + 1] == Leading(k);
  }

  lemma LeadIsNoDestroy(c: Id, k: string)
    ensures Destroy !in Lead(c, k)
  {}

  /**
    Destroy keeps single flight exactly when nothing is pending: otherwise some run without any
    further destroy has two factories of one key in flight.
   */
  lemma DestroyIsSafe(s: State)
    requires Inv(s)
    ensures s.pending == map[] <==> SingleFromHere(Next(s, Destroy))
  {
    hide IsRun, Final, SingleFromHere;
    if s.pending == map[] {
      assert Next(s, Destroy) == s;
      SingleWhileKept(s);
    } else {
      var key :| key in s.pending;
      var c := s.pending[key];
      var n := NewId(s.calls.Keys);
      if s.calls[c].InFlight() {
        InFlightAfterDestroy(Next(s, Destroy), c, n);
      } else {
        SettledAfterDestroy(Next(s, Destroy), c, n);
      }
    }
  }

  lemma SingleWhileKept(s: State)
    requires Inv(s)
    ensures SingleFromHere(s)
  {
    forall steps | IsRun(s, steps) && NoDestroy(steps) ensures OneInFlight(Final(s, steps)) {
      RunKeepsInv(s, steps);
    }
  }

  function Race(k: string): seq<Step> { Lead(1, k) + ([Destroy] + Lead(2, k)) }

  /** With destroy in between, two factories run for one key, and the first to finish drops the other's entry. */
  lemma DestroyAllowsTwo(k: string)
    ensures IsRun(EMPTY, Race(k)) && IsRun(EMPTY, Race(k) + Fail(1))
    ensures var s := Final(EMPTY, Race(k)); s.calls == map[1 := Leading(k), 2 := Leading(k)]
    ensures var t := Final(EMPTY, Race(k) + Fail(1)); 2 in t.calls && t.calls[2] == Leading(k) && k !in t.pending
  {
    hide IsRun, Final, Lead, Fail;
    Leads(EMPTY, 1, k);
    var s1 := Final(EMPTY, Lead(1, k));
    var s2 := Next(s1, Destroy);
    Leads(s2, 2, k);
    RunOne(s1, Destroy, Lead(2, k));
    RunConcat(EMPTY, Lead(1, k), [Destroy] + Lead(2, k));
    var s3 := Final(EMPTY, Race(k));
    Fails(s3, 1);
    RunConcat(EMPTY, Race(k), Fail(1));
  }

  // ---------------------------------------------------------------------------
  // The code
  // ---------------------------------------------------------------------------

  /** No call for `key` leads. */
  ghost predicate Unled(calls: map<Id, Call>, key: string) {
    forall d :: d in calls && calls[d].key == key ==> !calls[d].Unfinished()
  }

  class CacheService {
    var pending: map<string, Id>
    var store: map<string, Value>
    /** Where each call stands. */
    ghost var calls: map<Id, Call>

    ghost function View(): State reads this { State(calls, pending, store) }

    ghost predicate Valid() reads this { Inv(View()) }

    constructor ()
      ensures Valid() && View() == EMPTY
    {
      pending, store, calls := map[], map[], map[];
    }

    /** Up to the first await: the lookup has been sent. */
    ghost method GetOrSet(c: Id, key: string)
      requires Valid() && c !in calls
      modifies `calls
      ensures Valid() && calls == old(calls)[c := Reading(key)]
      ensures View() == Next(old(View()), Start(c, key))
    {
      Keeps(View(), Start(c, key));
      calls := calls[c := Reading(key)];
    }

    /** The driver answers a lookup: what is stored, and null for a miss. */
    method GetJson(c: Id, key: string) returns (cached: Value)
      requires Valid() && c in calls && calls[c] == Reading(key)
      modifies `calls
      ensures Valid() && calls == old(calls)[c := Read(key, cached)]
      ensures cached.Some? <==> key in store && store[key].Some?
      ensures cached.Some? ==> store[key] == cached
      ensures View() == Next(old(View()), Lookup(c))
    {
      Keeps(View(), Lookup(c));
      cached := if key in store then store[key] else None;
      calls := calls[c := Read(key, cached)];
    }

    /**
      After the lookup: a hit is returned; a miss joins the call that leads for the key, if there
      is one, and leads otherwise. Nobody else is touched.
     */
    method AfterLookup(c: Id, key: string, cached: Value) returns (role: Role)
      requires Valid() && c in calls && calls[c] == Read(key, cached)
      modifies `calls, `pending
      ensures Valid() && c in calls && calls == old(calls)[c := calls[c]]
      ensures role == Hit <==> cached.Some?
      ensures role == Leader <==> cached.None? && Unled(old(calls), key)
      ensures role.Joiner? ==>
        role.leader in old(calls) && old(calls)[role.leader].Unfinished() && old(calls)[role.leader].key == key
      ensures role == Leader ==> calls[c] == Leading(key) && pending == old(pending)[key := c]
      ensures role == Hit ==> calls[c] == Done(key, Returns(cached), Hit)
      ensures role.Joiner? ==> calls[c] == Joining(key, role.leader) && key in pending
      ensures role != Leader ==> pending == old(pending)
      ensures View() == Next(old(View()), Resume(c))
    {
      Keeps(View(), Resume(c));
      if cached.Some? {
        calls := calls[c := Done(key, Returns(cached), Hit)];
        return Hit;
      }
      if key in pending {
        calls := calls[c := Joining(key, pending[key])];
        return Joiner(pending[key]);
      }
      calls := calls[c := Leading(key)];
      pending := pending[key := c];
      return Leader;
    }

    /** The factory has returned or thrown. */
    ghost method FactoryEnds(c: Id, key: string, outcome: Outcome)
      requires Valid() && c in calls && calls[c] == Leading(key)
      modifies `calls
      ensures Valid()
      ensures calls == old(calls)[c := if outcome.Returns? then Storing(key, outcome.value) else Settled(key, outcome)]
      ensures View() == Next(old(View()),
        match outcome case Returns(value) => FactoryReturns(c, value) case Throws(error) => FactoryThrows(c, error))
    {
      match outcome
      case Returns(value) =>
        Keeps(View(), FactoryReturns(c, value));
        calls := calls[c := Storing(key, value)];
      case Throws(error) =>
        Keeps(View(), FactoryThrows(c, error));
        calls := calls[c := Settled(key, Throws(error))];
    }

    /** The value is written and the promise settles with it; or the write fails and so does the promise. */
    method SetJson(c: Id, key: string, value: Value, failure: Option<int>)
      requires Valid() && c in calls && calls[c] == Storing(key, value)
      modifies `calls, `store
      ensures Valid()
      ensures failure.None? ==>
        store == old(store)[key := value] && calls == old(calls)[c := Settled(key, Returns(value))]
      ensures failure.Some? ==> store == old(store) && calls == old(calls)[c := Settled(key, Throws(failure.value))]
      ensures View() == Next(old(View()), if failure.None? then Stored(c) else StoreFails(c, failure.value))
    {
      if failure.Some? {
        Keeps(View(), StoreFails(c, failure.value));
        calls := calls[c := Settled(key, Throws(failure.value))];
        return;
      }
      Keeps(View(), Stored(c));
      store := store[key := value];
      calls := calls[c := Settled(key, Returns(value))];
    }

    /** The leader's `finally`: the entry it removes is its own, and afterwards nobody leads for the key. */
    method Finally(c: Id, key: string) returns (ghost outcome: Outcome)
      requires Valid() && c in calls && calls[c].Settled? && calls[c].key == key
      modifies `calls, `pending
      ensures Valid() && calls == old(calls)[c := Done(key, outcome, Leader)]
      ensures outcome == old(calls)[c].outcome
      ensures key in old(pending) && old(pending)[key] == c && key !in pending && Unled(calls, key)
      ensures pending == old(pending) - {key}
      ensures View() == Next(old(View()), Finish(c))
    {
      Keeps(View(), Finish(c));
      outcome := calls[c].outcome;
      pending := pending - {key};
      calls := calls[c := Done(key, outcome, Leader)];
    }

    /** A joiner goes on when the promise it joined has settled, with the leader's outcome. */
    ghost method Awaited(c: Id) returns (outcome: Outcome)
      requires Valid() && c in calls && calls[c].Joining?
      requires calls[c].leader in calls && calls[calls[c].leader].HasOutcome()
      modifies `calls
      ensures Valid() && outcome == old(calls)[old(calls)[c].leader].outcome
      ensures calls == old(calls)[c := Done(old(calls)[c].key, outcome, Joiner(old(calls)[c].leader))]
      ensures View() == Next(old(View()), Wake(c))
    {
      Keeps(View(), Wake(c));
      var leader := calls[c].leader;
      outcome := calls[leader].outcome;
      calls := calls[c := Done(calls[c].key, outcome, Joiner(leader))];
    }

    /** What a leader does, in one go: `outcome` is the factory's, `failure` the write's. */
    method Lead(c: Id, key: string, outcome: Outcome, failure: Option<int>) returns (ghost result: Outcome)
      requires Valid() && c in calls && calls[c] == Leading(key)
      modifies this
      ensures Valid() && calls == old(calls)[c := Done(key, result, Leader)] && pending == old(pending) - {key}
      ensures
        if outcome.Throws? then result == outcome && store == old(store)
        else if failure.Some? then result == Throws(failure.value) && store == old(store)
        else result == outcome && store == old(store)[key := outcome.value]
    {
      hide Inv, Unled;
      FactoryEnds(c, key, outcome);
      if outcome.Returns? { SetJson(c, key, outcome.value, failure); }
      result := Finally(c, key);
    }

    /** A whole call while no other for the key is under way. */
    method Alone(c: Id, key: string, outcome: Outcome, failure: Option<int>) returns (ghost result: Outcome)
      requires Valid() && c !in calls && key !in pending
      modifies this
      ensures Valid() && c in calls && calls == old(calls)[c := calls[c]] && pending == old(pending)
      ensures
        if key in old(store) && old(store)[key].Some? then
          result == Returns(old(store)[key]) && store == old(store)
        else if outcome.Throws? then result == outcome && store == old(store)
        else if failure.Some? then result == Throws(failure.value) && store == old(store)
        else result == outcome && store == old(store)[key := outcome.value]
    {
      hide Inv, Unled;
      GetOrSet(c, key);
      var cached := GetJson(c, key);
      var role := AfterLookup(c, key, cached);
      if role == Hit { return Returns(cached); }
      result := Lead(c, key, outcome, failure);
      assert old(pending)[key := c] - {key} == old(pending);
    }

    /** destroy: the service stays valid if and only if no call was pending. */
    method Clear()
      requires Valid()
      modifies `pending
      ensures pending == map[] && (Valid() <==> old(pending) == map[])
      ensures View() == Next(old(View()), Destroy)
      ensures Valid() <==> SingleFromHere(View())
    {
      DestroyIsSafe(View());
      DestroyKeepsInv(View());
      pending := map[];
    }
  }

  lemma Keeps(s: State, step: Step)
    requires Inv(s) && Enabled(s, step) && !step.Destroy?
    ensures Inv(Next(s, step))
  {
    StepKeepsPending(s, step);
    StepKeepsJoiners(s, step);
  }

  lemma DestroyKeepsInv(s: State)
    requires Inv(s)
    ensures Inv(Next(s, Destroy)) <==> s.pending == map[]
  {
    if s.pending != map[] {
      var key :| key in s.pending;
      var c := s.pending[key];
      assert Next(s, Destroy).calls[c].Unfinished() && s.calls[c].key !in Next(s, Destroy).pending;
    }
  }
}
