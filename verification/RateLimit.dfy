/**
  Fixed-window rate limiting, over histories: a history is every request that reached a counter
  and every removal of counters, in time order. A counter's state is what the cache driver keeps;
  the windows are defined on the history alone, without counters.
 */
module RateLimit {
  import opened Base

  datatype Counter = Counter(count: nat, expiresAt: Option<nat>)

  /** What is left of a counter at `now`; an expired counter is none at all. */
  function LiveAt(counter: Option<Counter>, now: nat): Option<Counter> {
    if counter.Some? && (counter.value.expiresAt.None? || counter.value.expiresAt.value > now)
    then counter else None
  }

  /** One `incr`: the time to live is set on new counters only, and a time of 0 means no expiry. */
  function Bump(counter: Option<Counter>, windowMs: nat, now: nat): (next: Counter)
    ensures next.count >= 1
  {
    match LiveAt(counter, now)
    case Some(c) => c.(count := c.count + 1)
    case None => Counter(1, if windowMs == 0 then None else Some(now + windowMs))
  }

  datatype Event =
    | Hit(base: string, key: string, limit: int, windowMs: nat, now: nat)
    | Evicted(keys: set<string>, now: nat)
    | Reset(keys: set<string>, now: nat)
  {
    predicate Hits(k: string) { Hit? && key == k }
    predicate Removes(k: string) { !Hit? && k in keys }
  }

  predicate Monotone(h: seq<Event>) {
    forall i, j :: 0 <= i < j < |h| ==> h[i].now <= h[j].now
  }

  /** The time of the last event. */
  function Clock(h: seq<Event>): nat {
    if h == [] then 0 else h[|h| - 1].now
  }

  /** The counter of `k` after `h`. */
  function CounterOf(h: seq<Event>, k: string): Option<Counter> {
    if h == [] then None
    else
      var before, e := CounterOf(h[..|h| - 1], k), h[|h| - 1];
      if e.Hits(k) then Some(Bump(before, e.windowMs, e.now))
      else if e.Removes(k) then None
      else before
  }

  /** What the middleware decides on the request at `i`: `count > limit` is refused. */
  predicate Admitted(h: seq<Event>, i: nat)
    requires i < |h| && h[i].Hit?
  {
    Bump(CounterOf(h[..i], h[i].key), h[i].windowMs, h[i].now).count <= h[i].limit
  }

  // ---------------------------------------------------------------------------
  // Windows
  // ---------------------------------------------------------------------------

  /** The last request on `k` in `h` with no removal of `k` after it. */
  function Latest(h: seq<Event>, k: string): (i: Option<nat>)
    ensures i.Some? ==> i.value < |h| && h[i.value].Hits(k)
  {
    if h == [] then None
    else if h[|h| - 1].Hits(k) then Some(|h| - 1)
    else if h[|h| - 1].Removes(k) then None
    else Latest(h[..|h| - 1], k)
  }

  /** Whether a window opened by `opening` still covers time `now`. */
  predicate Covers(opening: Event, now: nat)
    requires opening.Hit?
  {
    opening.windowMs == 0 || now < opening.now + opening.windowMs
  }

  /** The request that opened the window of the request at `i`. */
  function Opening(h: seq<Event>, i: nat): (o: nat)
    requires i < |h| && h[i].Hit?
    ensures o <= i && h[o].Hits(h[i].key)
    decreases i
  {
    match Latest(h[..i], h[i].key)
    case None => i
    case Some(p) => var o := Opening(h, p); if Covers(h[o], h[i].now) then o else i
  }

  /** How many requests on `k` there are. */
  function Hits(h: seq<Event>, k: string): nat {
    if h == [] then 0 else Hits(h[..|h| - 1], k) + if h[|h| - 1].Hits(k) then 1 else 0
  }

  lemma {:induction false} OpeningOfPrefix(h: seq<Event>, n: nat, i: nat)
    requires i < n <= |h| && h[i].Hit?
    ensures Opening(h[..n], i) == Opening(h, i)
    decreases i
  {
    assert h[..n][..i] == h[..i];
    var p := Latest(h[..i], h[i].key);
    if p.Some? { OpeningOfPrefix(h, n, p.value); }
  }

  /** The counter holds the number of requests of its window, and expires with it. */
  ghost predicate Counts(h: seq<Event>, k: string) {
    match Latest(h, k)
    case None => CounterOf(h, k) == None
    case Some(p) =>
      var o := Opening(h, p);
      CounterOf(h, k) == Some(Counter(Hits(h[o..], k),
        if h[o].windowMs == 0 then None else Some(h[o].now + h[o].windowMs)))
  }

  lemma HitsSnoc(h: seq<Event>, o: nat, k: string)
    requires o < |h|
    ensures Hits(h[o..], k) == Hits(h[..|h| - 1][o..], k) + if h[|h| - 1].Hits(k) then 1 else 0
  {
    assert h[o..][..|h[o..]| - 1] == h[..|h| - 1][o..];
  }

  /** An event on another key changes nothing; one on `k` adds to the window or opens one. */
  lemma CountsStep(h: seq<Event>, k: string)
    requires h != [] && Counts(h[..|h| - 1], k)
    ensures Counts(h, k)
  {
    hide Opening, Hits;
    var n, e := |h| - 1, h[|h| - 1];
    var p := Latest(h[..n], k);
    if p.Some? {
      OpeningOfPrefix(h, n, p.value);
      HitsSnoc(h, Opening(h, p.value), k);
    }
    if e.Hits(k) {
      OpeningStep(h, n, p);
      HitsSnoc(h, n, k);
      assert h[..n][n..] == [];
      NoHits(k);
    }
  }

  lemma NoHits(k: string)
    ensures Hits([], k) == 0
  {}

  lemma OpeningStep(h: seq<Event>, i: nat, p: Option<nat>)
    requires i < |h| && h[i].Hit? && p == Latest(h[..i], h[i].key)
    ensures Opening(h, i) == match p
      case None => i
      case Some(p) => if Covers(h[Opening(h, p)], h[i].now) then Opening(h, p) else i
  {}

  lemma {:induction false} CounterIsWindow(h: seq<Event>, k: string)
    ensures Counts(h, k)
  {
    hide Counts;
    if h == [] {
      NothingCounted(k);
    } else {
      CounterIsWindow(h[..|h| - 1], k);
      CountsStep(h, k);
    }
  }

  lemma LastHit(h: seq<Event>)
    requires h != [] && h[|h| - 1].Hit?
    ensures var n := |h| - 1; var e := h[n];
      && Latest(h, e.key) == Some(n)
      && CounterOf(h, e.key) == Some(Bump(CounterOf(h[..n], e.key), e.windowMs, e.now))
  {}

  /** What the last request of `h` gets back from the cache: its place in its window, and the window's end. */
  lemma {:induction false} LastOfWindow(h: seq<Event>)
    requires h != [] && h[|h| - 1].Hit?
    ensures var n := |h| - 1; var o, e := Opening(h, n), h[n];
      && Bump(CounterOf(h[..n], e.key), e.windowMs, e.now)
        == Counter(Hits(h[o..], e.key), if h[o].windowMs == 0 then None else Some(h[o].now + h[o].windowMs))
      && (Admitted(h, n) <==> Hits(h[o..], e.key) <= e.limit)
  {
    hide Opening, Hits, Bump, CounterOf, Latest;
    LastHit(h);
    CounterIsWindow(h, h[|h| - 1].key);
  }

  lemma NothingCounted(k: string)
    ensures Counts([], k)
  {}

  /**
    Each window admits exactly its first `limit` requests: a request is admitted just when
    fewer than `limit` requests on its key came before it since its window opened.
   */
  lemma {:induction false} FirstOfWindow(h: seq<Event>, i: nat)
    requires i < |h| && h[i].Hit?
    ensures Admitted(h, i) <==> Hits(h[Opening(h, i)..i], h[i].key) < h[i].limit
  {
    var k := h[i].key;
    CounterIsWindow(h[..i], k);
    var p := Latest(h[..i], k);
    if p.Some? {
      OpeningOfPrefix(h, i, p.value);
      var o := Opening(h, p.value);
      assert h[..i][o..] == h[o..i];
    }
    assert Hits(h[i..i], k) == 0;
  }

  // ---------------------------------------------------------------------------
  // Independence
  // ---------------------------------------------------------------------------

  /** The events that concern `k`. */
  function Only(h: seq<Event>, k: string): seq<Event> {
    if h == [] then []
    else
      var e := h[|h| - 1];
      Only(h[..|h| - 1], k) + if e.Hits(k) || e.Removes(k) then [e] else []
  }

  /** Whatever is interleaved with them, the events of a key decide its counter. */
  lemma {:induction false} KeysAreIndependent(h: seq<Event>, k: string)
    ensures CounterOf(h, k) == CounterOf(Only(h, k), k)
  {
    if h != [] {
      var front, e := Only(h[..|h| - 1], k), h[|h| - 1];
      KeysAreIndependent(h[..|h| - 1], k);
      assert (front + [e])[..|front + [e]| - 1] == front;
      assert front + [] == front;
    }
  }

  // ---------------------------------------------------------------------------
  // The bound over time
  // ---------------------------------------------------------------------------

  /** Requests on `k` that were admitted from time `a` on. */
  function Admissions(h: seq<Event>, k: string, a: nat): nat {
    if h == [] then 0
    else
      var n := |h| - 1;
      Admissions(h[..n], k, a) + if h[n].Hits(k) && a <= h[n].now && Admitted(h, n) then 1 else 0
  }

  /** Removals of `k` from time `a` on. */
  function Removals(h: seq<Event>, k: string, a: nat): nat {
    if h == [] then 0
    else Removals(h[..|h| - 1], k, a) + if h[|h| - 1].Removes(k) && a <= h[|h| - 1].now then 1 else 0
  }

  predicate Uniform(h: seq<Event>, k: string, limit: nat, windowMs: nat) {
    forall i :: 0 <= i < |h| && h[i].Hits(k) ==> h[i].limit == limit && h[i].windowMs == windowMs
  }

  function Min(a: nat, b: nat): nat { if a < b then a else b }

  /** What may have been admitted so far, by the window that is open and when it was opened. */
  ghost predicate WithinBudget(h: seq<Event>, k: string, a: nat, limit: nat, windowMs: nat) {
    var admitted, removals := Admissions(h, k, a), Removals(h, k, a);
    match CounterOf(h, k)
    case None => admitted < (1 + removals) * limit
    case Some(c) =>
      && c.count >= 1 && c.expiresAt.Some?
      && c.expiresAt.value <= Clock(h) + windowMs
      && if c.expiresAt.value < a + windowMs then admitted < Min(c.count, limit)
         else admitted < (1 + removals) * limit + Min(c.count, limit)
  }

  lemma Budgets(removals: nat, limit: nat)
    ensures (1 + (removals + 1)) * limit == (1 + removals) * limit + limit
    ensures (1 + removals) * limit >= limit
  {}

  lemma {:induction false} StaysWithinBudget(h: seq<Event>, k: string, a: nat, limit: nat, windowMs: nat)
    requires Monotone(h) && Clock(h) < a + windowMs
    requires limit >= 1 && windowMs >= 1 && Uniform(h, k, limit, windowMs)
    ensures WithinBudget(h, k, a, limit, windowMs)
  {
    if h != [] {
      var n, e := |h| - 1, h[|h| - 1];
      assert n > 0 ==> h[n - 1].now <= h[n].now;
      StaysWithinBudget(h[..n], k, a, limit, windowMs);
      Budgets(Removals(h[..n], k, a), limit);
      if e.now < a { NothingBefore(h, k, a); }
    }
  }

  lemma {:induction false} NothingBefore(h: seq<Event>, k: string, a: nat)
    requires Monotone(h) && Clock(h) < a
    ensures Admissions(h, k, a) == 0 && Removals(h, k, a) == 0
  {
    if h != [] {
      var n := |h| - 1;
      assert n > 0 ==> h[n - 1].now <= h[n].now;
      NothingBefore(h[..n], k, a);
    }
  }

  /**
    In any run with monotone time, whatever is interleaved, a key with one limit and one window
    admits fewer than 2 * limit requests in any windowMs consecutive milliseconds, and at most
    limit more for each time its counter was removed in them.
   */
  lemma BoundOverTime(h: seq<Event>, k: string, a: nat, limit: nat, windowMs: nat)
    requires Monotone(h) && Clock(h) < a + windowMs
    requires limit >= 1 && windowMs >= 1 && Uniform(h, k, limit, windowMs)
    ensures Admissions(h, k, a) < (2 + Removals(h, k, a)) * limit
  {
    StaysWithinBudget(h, k, a, limit, windowMs);
    Budgets(Removals(h, k, a), limit);
  }

  // ---------------------------------------------------------------------------
  // The bound is reached
  // ---------------------------------------------------------------------------

  /** `n` requests on "k" at one time. */
  function Burst(n: nat, limit: nat, windowMs: nat, now: nat): seq<Event> {
    seq(n, i => Hit("b", "k", limit, windowMs, now))
  }

  /** As many bursts of `limit`, each after a removal of the counter. */
  function Bursts(removals: nat, limit: nat, windowMs: nat, now: nat): seq<Event> {
    if removals == 0 then []
    else Bursts(removals - 1, limit, windowMs, now) + ([Reset({"k"}, now)] + Burst(limit, limit, windowMs, now))
  }

  /**
    One request opens a window, which is filled in its last millisecond; at its end the next is
    filled at once, and again after each removal.
   */
  function TightRun(limit: nat, windowMs: nat, removals: nat): seq<Event>
    requires limit >= 1 && windowMs >= 1
  {
    Burst(1, limit, windowMs, 0) + Burst(limit - 1, limit, windowMs, windowMs - 1)
    + Burst(limit, limit, windowMs, windowMs) + Bursts(removals, limit, windowMs, windowMs)
  }

  /** What a history has come to: its counter of "k", and what was admitted and removed since `a`. */
  ghost predicate Stands(h: seq<Event>, a: nat, now: nat, limit: nat, windowMs: nat,
                         counter: Option<Counter>, admitted: nat, removed: nat) {
    && Monotone(h) && Clock(h) <= now && Uniform(h, "k", limit, windowMs)
    && CounterOf(h, "k") == counter && Admissions(h, "k", a) == admitted && Removals(h, "k", a) == removed
  }

  lemma MonotoneSnoc(h: seq<Event>, e: Event)
    requires Monotone(h) && Clock(h) <= e.now
    ensures Monotone(h + [e]) && Clock(h + [e]) == e.now && (h + [e])[..|h|] == h
  {
    assert forall i :: 0 <= i < |h| ==> h[i].now <= h[|h| - 1].now;
  }

  lemma UniformSnoc(h: seq<Event>, e: Event, limit: nat, windowMs: nat)
    requires Uniform(h, "k", limit, windowMs) && (e.Hits("k") ==> e.limit == limit && e.windowMs == windowMs)
    ensures Uniform(h + [e], "k", limit, windowMs)
  {}

  /** One more request. */
  lemma OneMore(h: seq<Event>, a: nat, now: nat, limit: nat, windowMs: nat,
                counter: Option<Counter>, admitted: nat, removed: nat)
    requires Stands(h, a, now, limit, windowMs, counter, admitted, removed)
    requires Bump(counter, windowMs, now).count <= limit
    ensures Stands(h + [Hit("b", "k", limit, windowMs, now)], a, now, limit, windowMs,
                   Some(Bump(counter, windowMs, now)), admitted + if a <= now then 1 else 0, removed)
  {
    var e := Hit("b", "k", limit, windowMs, now);
    MonotoneSnoc(h, e);
    UniformSnoc(h, e, limit, windowMs);
  }

  lemma OneRemoval(h: seq<Event>, a: nat, now: nat, limit: nat, windowMs: nat,
                   counter: Option<Counter>, admitted: nat, removed: nat)
    requires Stands(h, a, now, limit, windowMs, counter, admitted, removed) && a <= now
    ensures Stands(h + [Reset({"k"}, now)], a, now, limit, windowMs, None, admitted, removed + 1)
  {
    var e := Reset({"k"}, now);
    MonotoneSnoc(h, e);
    UniformSnoc(h, e, limit, windowMs);
  }

  /** A window with room for a burst admits all of it; with no live counter, a whole limit. */
  lemma {:induction false} BurstFits(h: seq<Event>, n: nat, a: nat, now: nat, limit: nat, windowMs: nat,
                                     counter: Option<Counter>, admitted: nat, removed: nat, end: nat)
    requires Stands(h, a, now, limit, windowMs, counter, admitted, removed) && windowMs >= 1 && end > now
    requires match LiveAt(counter, now)
      case Some(c) => c.expiresAt == Some(end) && c.count + n <= limit
      case None => end == now + windowMs && n <= limit
    ensures Stands(h + Burst(n, limit, windowMs, now), a, now, limit, windowMs,
      if n == 0 then counter
      else Some(Counter((if LiveAt(counter, now).Some? then counter.value.count else 0) + n, Some(end))),
      admitted + (if a <= now then n else 0), removed)
  {
    hide Stands;
    if n == 0 {
      assert h + Burst(0, limit, windowMs, now) == h;
    } else {
      BurstFits(h, n - 1, a, now, limit, windowMs, counter, admitted, removed, end);
      var before := h + Burst(n - 1, limit, windowMs, now);
      var base := if LiveAt(counter, now).Some? then counter.value.count else 0;
      var reached := if n == 1 then counter else Some(Counter(base + n - 1, Some(end)));
      OneMore(before, a, now, limit, windowMs, reached, admitted + (if a <= now then n - 1 else 0), removed);
      assert before + [Hit("b", "k", limit, windowMs, now)] == h + Burst(n, limit, windowMs, now);
    }
  }

  lemma {:induction false} BurstsFit(h: seq<Event>, removals: nat, a: nat, now: nat, limit: nat, windowMs: nat,
                                     counter: Option<Counter>, admitted: nat) returns (last: Option<Counter>)
    requires Stands(h, a, now, limit, windowMs, counter, admitted, 0) && limit >= 1 && windowMs >= 1 && a <= now
    ensures Stands(h + Bursts(removals, limit, windowMs, now), a, now, limit, windowMs,
                   last, admitted + removals * limit, removals)
  {
    hide Stands;
    if removals == 0 {
      assert h + Bursts(0, limit, windowMs, now) == h;
      last := counter;
    } else {
      var previous := BurstsFit(h, removals - 1, a, now, limit, windowMs, counter, admitted);
      var before := h + Bursts(removals - 1, limit, windowMs, now);
      var total := admitted + (removals - 1) * limit;
      OneRemoval(before, a, now, limit, windowMs, previous, total, removals - 1);
      BurstFits(before + [Reset({"k"}, now)], limit, a, now, limit, windowMs, None, total, removals, now + windowMs);
      assert before + [Reset({"k"}, now)] + Burst(limit, limit, windowMs, now)
        == h + Bursts(removals, limit, windowMs, now);
      assert total + limit == admitted + removals * limit;
      last := Some(Counter(limit, Some(now + windowMs)));
    }
  }

  /**
    The bound is reached for every limit, every window of at least two milliseconds and every
    number of removals: one request below it is admitted.
   */
  lemma BoundIsReached(limit: nat, windowMs: nat, removals: nat)
    requires limit >= 1 && windowMs >= 2
    ensures var h, a := TightRun(limit, windowMs, removals), windowMs - 1;
      && Monotone(h) && Uniform(h, "k", limit, windowMs) && Clock(h) < a + windowMs
      && Removals(h, "k", a) == removals
      && Admissions(h, "k", a) == (2 + removals) * limit - 1
  {
    hide Burst, Bursts, CounterOf, Admissions, Removals, Monotone, Uniform, Stands;
    var a := windowMs - 1;
    StandsAtFirst(a, limit, windowMs);
    BurstFits([], 1, a, 0, limit, windowMs, None, 0, 0, windowMs);
    var h1 := [] + Burst(1, limit, windowMs, 0);
    StandsLater(h1, a, 0, a, limit, windowMs, Some(Counter(1, Some(windowMs))), 0, 0);
    BurstFits(h1, limit - 1, a, a, limit, windowMs, Some(Counter(1, Some(windowMs))), 0, 0, windowMs);
    var h2 := h1 + Burst(limit - 1, limit, windowMs, a);
    var full := Some(Counter(limit, Some(windowMs)));
    StandsLater(h2, a, a, windowMs, limit, windowMs, full, limit - 1, 0);
    BurstFits(h2, limit, a, windowMs, limit, windowMs, full, limit - 1, 0, windowMs + windowMs);
    var h3 := h2 + Burst(limit, limit, windowMs, windowMs);
    var last := BurstsFit(h3, removals, a, windowMs, limit, windowMs,
                          Some(Counter(limit, Some(windowMs + windowMs))), limit - 1 + limit);
    assert h3 + Bursts(removals, limit, windowMs, windowMs) == TightRun(limit, windowMs, removals);
    assert (2 + removals) * limit == limit + limit + removals * limit;
    StandsTells(TightRun(limit, windowMs, removals), a, windowMs, limit, windowMs,
                last, limit - 1 + limit + removals * limit, removals);
  }

  lemma StandsAtFirst(a: nat, limit: nat, windowMs: nat)
    ensures Stands([], a, 0, limit, windowMs, None, 0, 0)
  {}

  lemma StandsLater(h: seq<Event>, a: nat, now: nat, later: nat, limit: nat, windowMs: nat,
                    counter: Option<Counter>, admitted: nat, removed: nat)
    requires Stands(h, a, now, limit, windowMs, counter, admitted, removed) && now <= later
    ensures Stands(h, a, later, limit, windowMs, counter, admitted, removed)
  {}

  lemma StandsTells(h: seq<Event>, a: nat, now: nat, limit: nat, windowMs: nat,
                    counter: Option<Counter>, admitted: nat, removed: nat)
    requires Stands(h, a, now, limit, windowMs, counter, admitted, removed)
    ensures Monotone(h) && Clock(h) <= now && Uniform(h, "k", limit, windowMs)
    ensures Admissions(h, "k", a) == admitted && Removals(h, "k", a) == removed
  {}
}
