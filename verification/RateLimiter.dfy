/** RateLimitService and the memory driver under it: counters, and the index from base keys to counters. */
module RateLimiter {
  import opened Base
  import opened RateLimit
  import opened Text

  /** What the middleware tells the client; `retryAfter` is in seconds. */
  datatype Decision = Decision(admitted: bool, remaining: nat, resetAt: nat, retryAfter: nat)

  /** The keys of each base key, in the order in which they were added. */
  type Index = map<string, seq<string>>

  /** A list without one of its keys. */
  function Without(keys: seq<string>, k: string): (rest: seq<string>)
    ensures forall x :: x in rest <==> x in keys && x != k
  {
    if keys == [] then []
    else
      var n := |keys| - 1;
      assert keys == keys[..n] + [keys[n]];
      Without(keys[..n], k) + if keys[n] == k then [] else [keys[n]]
  }

  function Find(counters: map<string, Counter>, k: string): Option<Counter> {
    if k in counters then Some(counters[k]) else None
  }

  /** The base keys that made requests on `k` since it was last reset. */
  function Makers(h: seq<Event>, k: string): set<string> {
    if h == [] then {}
    else
      var before, e := Makers(h[..|h| - 1], k), h[|h| - 1];
      match e
      case Hit(base, key, _, _, _) => if key == k then before + {base} else before
      case Evicted(_, _) => before
      case Reset(keys, _) => if k in keys then {} else before
  }

  /** The store holds, as far as anyone can tell from `now` on, the counters of the history. */
  ghost predicate Agrees(counters: map<string, Counter>, h: seq<Event>, now: nat) {
    forall k :: LiveAt(Find(counters, k), now) == LiveAt(CounterOf(h, k), now)
  }

  /** Every counter is indexed under each base key that made requests on it. */
  ghost predicate Covered(index: Index, h: seq<Event>) {
    forall k, b :: b in Makers(h, k) ==> b in index && k in index[b]
  }

  function Added(keys: seq<string>, key: string): seq<string> { if key in keys then keys else keys + [key] }

  function Remember(index: Index, base: string, key: string): Index {
    index[base := Added(if base in index then index[base] else [], key)]
  }

  function Forget(index: Index, base: string, key: string): Index {
    if base in index then index - {base}
    else map b | b in index && Without(index[b], key) != [] :: Without(index[b], key)
  }

  function AddAll(keys: seq<string>, more: seq<string>): (all: seq<string>)
    ensures keys <= all && forall x :: x in all <==> x in keys || x in more
  {
    if more == [] then keys
    else
      var n := |more| - 1;
      assert more == more[..n] + [more[n]];
      Added(AddAll(keys, more[..n]), more[n])
  }

  lemma AddNothing(keys: seq<string>)
    ensures AddAll(keys, []) == keys
  {}

  lemma AddAllNext(keys: seq<string>, more: seq<string>, i: nat)
    requires i < |more|
    ensures AddAll(keys, more[..i + 1]) == Added(AddAll(keys, more[..i]), more[i])
  {
    assert more[..i + 1][..i] == more[..i];
  }

  /** The counters that a key may stand for: the one it names itself, then those indexed under it. */
  function Candidates(prefix: string, index: Index, key: string): seq<string> {
    AddAll([if StartsWith(key, prefix) then key else prefix + key], if key in index then index[key] else [])
  }

  /** The key's own counter comes first and the others as indexed, none twice; a key with the prefix names itself. */
  lemma CandidatesAre(prefix: string, index: Index, key: string)
    ensures var own := if prefix <= key then key else prefix + key; var all := Candidates(prefix, index, key);
      && all != [] && all[0] == own
      && (forall k :: k in all <==> k == own || (key in index && k in index[key]))
  {}

  /** Who is indexed under a base key made a request there. */
  ghost predicate Honest(index: Index, h: seq<Event>) {
    forall b, k :: b in index && k in index[b] ==> Requested(h, b, k)
  }

  ghost predicate Requested(h: seq<Event>, b: string, k: string) {
    exists i :: 0 <= i < |h| && h[i].Hit? && h[i].base == b && h[i].key == k
  }

  lemma HonestLater(was: Index, index: Index, h: seq<Event>, more: seq<Event>)
    requires Honest(was, h) && forall b, k :: b in index && k in index[b] ==> b in was && k in was[b]
    ensures Honest(index, h + more)
  {
    forall b, k | b in index && k in index[b] ensures Requested(h + more, b, k) {
      var i :| 0 <= i < |h| && h[i].Hit? && h[i].base == b && h[i].key == k;
      assert (h + more)[i] == h[i];
    }
  }

  lemma HonestAfterHit(index: Index, h: seq<Event>, gone: Event, hit: Event)
    requires Honest(index, h) && hit.Hit?
    ensures Honest(Remember(index, hit.base, hit.key), h + [gone] + [hit])
  {
    var next, all := Remember(index, hit.base, hit.key), h + [gone] + [hit];
    HonestLater(index, index, h, [gone] + [hit]);
    assert all == h + ([gone] + [hit]);
    assert all[|h| + 1] == hit && Requested(all, hit.base, hit.key);
    forall b, k | b in next && k in next[b] ensures Requested(all, b, k) {
      if !(b == hit.base && k == hit.key) { assert b in index && k in index[b]; }
    }
  }

  /** What is indexed and no candidate stays indexed. */
  predicate StillIndexed(was: Index, index: Index, candidates: seq<string>) {
    forall b, k :: b in was && k in was[b] && k !in candidates ==> b in index && k in index[b]
  }

  lemma AllIndexed(prefix: string, index: Index, key: string)
    ensures var candidates := Candidates(prefix, index, key);
      StillIndexed(index, index, candidates) && (key in index ==> forall k :: k in index[key] ==> k in candidates)
  {}

  lemma ForgetKeepsOthers(was: Index, index: Index, candidates: seq<string>, key: string, k: string)
    requires StillIndexed(was, index, candidates) && k in candidates
    requires key in was ==> forall x :: x in was[key] ==> x in candidates
    ensures StillIndexed(was, Forget(index, key, k), candidates)
  {}

  /** Nothing is indexed under the base key or newly, and none of these counters is. */
  predicate Forgotten(was: Index, index: Index, key: string, gone: seq<string>) {
    && key !in index
    && forall b :: b in index ==> b in was && forall k :: k in index[b] ==> k in was[b] && k !in gone
  }

  lemma ForgetFirst(was: Index, key: string, k: string)
    ensures Forgotten(was, Forget(was, key, k), key, if key in was then [] else [k])
  {}

  lemma ForgetNext(was: Index, index: Index, key: string, gone: seq<string>, k: string)
    requires Forgotten(was, index, key, gone)
    ensures Forgotten(was, Forget(index, key, k), key, gone + [k])
  {}

  /** The candidates that a reset takes out of all sets: all, but the first for a base key that is indexed. */
  function Purged(prefix: string, index: Index, key: string): seq<string> {
    Candidates(prefix, index, key)[if key in index then 1 else 0..]
  }

  function SetOf(keys: seq<string>): set<string> { set k | k in keys }

  /** The first of these keys with a live counter. */
  function FirstLive(h: seq<Event>, keys: seq<string>, now: nat): Option<Counter> {
    if keys == [] then None
    else if LiveAt(CounterOf(h, keys[0]), now).Some? then LiveAt(CounterOf(h, keys[0]), now)
    else FirstLive(h, keys[1..], now)
  }

  /** The keys that have not expired. */
  function Live(counters: map<string, Counter>, now: nat): set<string> {
    set k | k in counters && LiveAt(Some(counters[k]), now).Some?
  }

  /** Each counter has a place in the order of insertion. */
  ghost predicate Placed(places: map<string, nat>, counters: map<string, Counter>, next: nat) {
    && places.Keys == counters.Keys
    && (forall k :: k in places ==> places[k] < next)
    && forall j, k :: j in places && k in places && places[j] == places[k] ==> j == k
  }

  /** The oldest of these keys. */
  ghost predicate IsOldest(k: string, keys: set<string>, places: map<string, nat>)
    requires keys <= places.Keys
  {
    k in keys && forall j :: j in keys ==> places[k] <= places[j]
  }

  /** Whom a new key pushes out: at `maxKeys`, with nothing expired left, the oldest key, unless it is empty. */
  ghost predicate PushedOut(evicted: set<string>, counters: map<string, Counter>, places: map<string, nat>,
                            key: string, maxKeys: nat, now: nat)
    requires counters.Keys <= places.Keys
  {
    if key in counters || |counters| < maxKeys || |Live(counters, now)| < maxKeys then evicted == {}
    else Leaves(evicted, Live(counters, now), places)
  }

  /** The oldest of these keys is what goes, unless it is empty or there is none. */
  ghost predicate Leaves(evicted: set<string>, keys: set<string>, places: map<string, nat>)
    requires keys <= places.Keys
  {
    if evicted == {} then keys == {} || IsOldest("", keys, places)
    else exists k :: evicted == {k} && k != "" && IsOldest(k, keys, places)
  }

  lemma NobodyPushedOut(
      places: map<string, nat>, counters: map<string, Counter>, next: nat, key: string, maxKeys: nat, now: nat)
    requires Placed(places, counters, next) && (key in counters || |counters| < maxKeys)
    ensures counters.Keys <= places.Keys && PushedOut({}, counters, places, key, maxKeys, now)
  {}

  lemma PlacedWithout(places: map<string, nat>, counters: map<string, Counter>, next: nat, k: string)
    requires Placed(places, counters, next)
    ensures Placed(places - {k}, counters - {k}, next)
  {}

  /** Every counter that a base key made requests on since its last reset is among the base key's candidates. */
  lemma CandidatesCover(prefix: string, index: Index, h: seq<Event>, base: string, k: string)
    requires Covered(index, h) && base in Makers(h, k)
    ensures k in Candidates(prefix, index, base)
  {
    hide Makers;
  }

  lemma Snoc(h: seq<Event>, e: Event)
    requires Monotone(h) && Clock(h) <= e.now
    ensures Monotone(h + [e]) && (h + [e])[..|h|] == h
  {
    assert forall i :: 0 <= i < |h| ==> h[i].now <= h[|h| - 1].now;
  }

  lemma AgreesLater(counters: map<string, Counter>, h: seq<Event>, now: nat, later: nat)
    requires Agrees(counters, h, now) && now <= later
    ensures Agrees(counters, h, later)
  {
    hide CounterOf;
    forall k ensures LiveAt(Find(counters, k), later) == LiveAt(CounterOf(h, k), later) {
      var x, y := Find(counters, k), CounterOf(h, k);
      assert LiveAt(x, now) == LiveAt(y, now);
    }
  }

  lemma AgreesAfterRemoval(was: map<string, Counter>, counters: map<string, Counter>, h: seq<Event>, e: Event)
    requires !e.Hit? && Agrees(was, h, e.now)
    requires forall k ::
      LiveAt(Find(counters, k), e.now) == if k in e.keys then None else LiveAt(Find(was, k), e.now)
    ensures Agrees(counters, h + [e], e.now)
  {
    assert (h + [e])[..|h|] == h;
  }

  lemma AgreesAfterHit(was: map<string, Counter>, counters: map<string, Counter>, h: seq<Event>, e: Event)
    requires e.Hit? && Agrees(was, h, e.now)
    requires forall k ::
      LiveAt(Find(counters, k), e.now)
        == if k == e.key then Some(Bump(Find(was, k), e.windowMs, e.now)) else LiveAt(Find(was, k), e.now)
    ensures Agrees(counters, h + [e], e.now)
    ensures Bump(Find(was, e.key), e.windowMs, e.now) == Bump(CounterOf(h, e.key), e.windowMs, e.now)
  {
    assert (h + [e])[..|h|] == h;
    assert LiveAt(Find(was, e.key), e.now) == LiveAt(CounterOf(h, e.key), e.now);
  }

  lemma CoveredAfterHit(index: Index, h: seq<Event>, e: Event)
    requires e.Hit? && Covered(index, h)
    ensures Covered(Remember(index, e.base, e.key), h + [e])
  {
    assert (h + [e])[..|h|] == h;
    var next := Remember(index, e.base, e.key);
    forall k, b | b in Makers(h + [e], k) ensures b in next && k in next[b] {
      assert b in Makers(h, k) || (b == e.base && k == e.key);
    }
  }

  lemma CoveredAfterEviction(index: Index, h: seq<Event>, e: Event)
    requires e.Evicted? && Covered(index, h)
    ensures Covered(index, h + [e])
  {
    assert (h + [e])[..|h|] == h;
    forall k, b | b in Makers(h + [e], k) ensures b in index && k in index[b] {
      assert b in Makers(h, k);
    }
  }

  /** A counter that outlives a reset is still indexed: the reset only dropped the keys it removed. */
  lemma CoveredAfterReset(was: Index, index: Index, h: seq<Event>, e: Event)
    requires e.Reset? && Covered(was, h)
    requires forall b, k :: b in was && k in was[b] && k !in e.keys ==> b in index && k in index[b]
    ensures Covered(index, h + [e])
  {
    assert (h + [e])[..|h|] == h;
    forall k, b | b in Makers(h + [e], k) ensures b in index && k in index[b] {
      assert b in Makers(h, k) && k !in e.keys;
    }
  }

  /** A request, with the eviction it may have caused, is the next two events of the history. */
  lemma RequestRecorded(was: map<string, Counter>, counters: map<string, Counter>,
                        index: Index, h: seq<Event>, gone: Event, hit: Event)
    requires Monotone(h) && Clock(h) <= hit.now && Agrees(was, h, hit.now) && Covered(index, h)
    requires hit.Hit? && gone.Evicted? && gone.now == hit.now && hit.key !in gone.keys
    requires forall k ::
      LiveAt(Find(counters, k), hit.now)
        == if k == hit.key then Some(Bump(Find(was, k), hit.windowMs, hit.now))
           else if k in gone.keys then None else LiveAt(Find(was, k), hit.now)
    ensures var next := h + [gone] + [hit];
      && Monotone(next)
      && Agrees(counters, next, hit.now)
      && Covered(Remember(index, hit.base, hit.key), next)
      && Bump(Find(was, hit.key), hit.windowMs, hit.now)
        == Bump(CounterOf(h + [gone], hit.key), hit.windowMs, hit.now)
  {
    hide Agrees, Covered, CounterOf, Makers, Remember, Bump;
    Snoc(h, gone);
    Snoc(h + [gone], hit);
    var kept := was - gone.keys;
    AgreesAfterRemoval(was, kept, h, gone);
    AgreesAfterHit(kept, counters, h + [gone], hit);
    CoveredAfterEviction(index, h, gone);
    CoveredAfterHit(index, h + [gone], hit);
  }

  /** A reset that deleted every candidate of `key` is the next event of the history. */
  lemma ResetRecorded(was: map<string, Counter>, index: Index, next: Index, h: seq<Event>, candidates: seq<string>,
                      key: string, now: nat)
    requires Monotone(h) && Clock(h) <= now && Agrees(was, h, now) && Covered(index, h)
    requires key in index ==> forall k :: k in index[key] ==> k in candidates
    requires StillIndexed(index, next, candidates)
    ensures var e := Reset(SetOf(candidates), now);
      && Monotone(h + [e]) && Agrees(was - e.keys, h + [e], now) && Covered(next, h + [e])
      && Clock(h + [e]) == now && forall k :: key in Makers(h, k) ==> k in e.keys
  {
    hide CounterOf, Makers, Agrees, Monotone;
    var e := Reset(SetOf(candidates), now);
    Snoc(h, e);
    AgreesAfterRemoval(was, was - e.keys, h, e);
    CoveredAfterReset(index, next, h, e);
  }

  class Limiter {
    const keyPrefix: string
    const maxKeys: nat
    var keyIndex: Index
    var counters: map<string, Counter>
    /** Where each counter stands in the order of insertion, and the next place. */
    var places: map<string, nat>
    var next: nat
    /** Every request and removal so far. */
    ghost var history: seq<Event>
    /** The time of the last call. */
    ghost var clock: nat

    ghost predicate Valid() reads this {
      && Monotone(history) && Clock(history) <= clock
      && Agrees(counters, history, clock)
      && Covered(keyIndex, history) && Honest(keyIndex, history)
      && Placed(places, counters, next)
    }

    constructor (keyPrefix: string, maxKeys: nat)
      ensures Valid() && history == [] && this.keyPrefix == keyPrefix && this.maxKeys == maxKeys
    {
      this.keyPrefix, this.maxKeys := keyPrefix, maxKeys;
      keyIndex, counters, places, next, history, clock := map[], map[], map[], 0, [], 0;
    }

    method RememberKey(baseKey: string, fullKey: string)
      modifies `keyIndex
      ensures keyIndex == Remember(old(keyIndex), baseKey, fullKey)
    {
      var keys := if baseKey in keyIndex then keyIndex[baseKey] else [];
      if fullKey !in keys { keys := keys + [fullKey]; }
      keyIndex := keyIndex[baseKey := keys];
    }

    method ForgetKey(key: string, fullKey: string)
      modifies `keyIndex
      ensures keyIndex == Forget(old(keyIndex), key, fullKey)
    {
      if key in keyIndex {
        keyIndex := keyIndex - {key};
        return;
      }
      var rest, was := keyIndex.Keys, keyIndex;
      while rest != {}
        invariant rest <= was.Keys && keyIndex.Keys <= was.Keys
        invariant forall b :: b in rest ==> b in keyIndex && keyIndex[b] == was[b]
        invariant forall b :: b in was && b !in rest ==>
          (b in keyIndex <==> Without(was[b], fullKey) != [])
          && (b in keyIndex ==> keyIndex[b] == Without(was[b], fullKey))
      {
        var baseKey :| baseKey in rest;
        rest := rest - {baseKey};
        keyIndex := keyIndex[baseKey := Without(keyIndex[baseKey], fullKey)];
        if keyIndex[baseKey] == [] {
          keyIndex := keyIndex - {baseKey};
        }
      }
    }

    method GetCandidateKeys(key: string) returns (candidates: seq<string>)
      ensures candidates == Candidates(keyPrefix, keyIndex, key)
    {
      hide AddAll;
      ghost var own := [if StartsWith(key, keyPrefix) then key else keyPrefix + key];
      candidates := [];
      if StartsWith(key, keyPrefix) {
        candidates := candidates + [key];
      } else {
        candidates := candidates + [keyPrefix + key];
      }
      assert candidates == own && AddAll(own, []) == own by { AddNothing(own); }
      if key in keyIndex {
        var indexed := keyIndex[key];
        for i := 0 to |indexed|
          invariant candidates == AddAll(own, indexed[..i])
        {
          AddAllNext(own, indexed, i);
          if indexed[i] !in candidates { candidates := candidates + [indexed[i]]; }
        }
        assert indexed[..|indexed|] == indexed;
      }
    }

    /** Expired entries go; nobody can tell. */
    method Cleanup(now: nat)
      requires Placed(places, counters, next)
      modifies `counters, `places
      ensures Placed(places, counters, next) && counters.Keys == Live(old(counters), now)
      ensures counters.Keys <= old(counters).Keys && places.Keys <= old(places).Keys
      ensures forall k :: k in counters ==> counters[k] == old(counters)[k] && places[k] == old(places)[k]
    {
      var rest, was := counters.Keys, counters;
      while rest != {}
        invariant Placed(places, counters, next) && rest <= was.Keys
        invariant counters.Keys == rest + (Live(was, now) - rest) && places.Keys <= old(places).Keys
        invariant forall k :: k in counters ==> counters[k] == was[k] && places[k] == old(places)[k]
      {
        var k :| k in rest;
        rest := rest - {k};
        if counters[k].expiresAt.Some? && counters[k].expiresAt.value <= now {
          counters, places := counters - {k}, places - {k};
        }
      }
    }

    /** The first key in the order of insertion. */
    method FirstKey() returns (first: string)
      requires Placed(places, counters, next) && counters != map[]
      ensures IsOldest(first, counters.Keys, places)
    {
      first :| first in counters;
      var rest := counters.Keys - {first};
      while rest != {}
        invariant rest <= counters.Keys && IsOldest(first, counters.Keys - rest, places)
      {
        var k :| k in rest;
        rest := rest - {k};
        if places[k] < places[first] { first := k; }
      }
      assert counters.Keys - rest == counters.Keys;
    }

    /** At `maxKeys`: expired entries go, and if that is not enough, the oldest. */
    method MakeRoom(key: string, now: nat) returns (ghost evicted: set<string>)
      requires Placed(places, counters, next) && key !in counters && |counters| >= maxKeys
      modifies `counters, `places
      ensures Placed(places, counters, next) && key !in counters && key !in evicted
      ensures PushedOut(evicted, old(counters), old(places), key, maxKeys, now)
      ensures forall k ::
        LiveAt(Find(counters, k), now) == if k in evicted then None else LiveAt(Find(old(counters), k), now)
    {
      hide Placed;
      evicted := {};
      Cleanup(now);
      if |counters| >= maxKeys && counters != map[] {
        var first := FirstKey();
        if first != "" {
          evicted := {first};
          PlacedWithout(places, counters, next, first);
          counters, places := counters - {first}, places - {first};
        }
      }
    }

    /** A key that is there keeps its place; a new one goes behind all others. */
    method Put(key: string, counter: Counter)
      requires Placed(places, counters, next)
      modifies `counters, `places, `next
      ensures Placed(places, counters, next) && counters == old(counters)[key := counter]
      ensures if key in old(counters) then places == old(places) else places == old(places)[key := old(next)]
    {
      if key !in counters { places, next := places[key := next], next + 1; }
      counters := counters[key := counter];
    }

    /** Atomic increment. At `maxKeys`, a new counter may push the oldest out. */
    method Incr(key: string, ttl: nat, now: nat) returns (counter: Counter, ghost evicted: set<string>)
      requires Placed(places, counters, next)
      modifies `counters, `places, `next
      ensures Placed(places, counters, next)
      ensures counter == Bump(Find(old(counters), key), ttl, now)
      ensures PushedOut(evicted, old(counters), old(places), key, maxKeys, now) && key !in evicted
      ensures forall k ::
        LiveAt(Find(counters, k), now)
          == if k == key then Some(counter) else if k in evicted then None else LiveAt(Find(old(counters), k), now)
    {
      hide PushedOut, Placed;
      evicted := {};
      if key in counters || |counters| < maxKeys { NobodyPushedOut(places, counters, next, key, maxKeys, now); }
      if key in counters && (counters[key].expiresAt.None? || counters[key].expiresAt.value > now) {
        counter := counters[key].(count := counters[key].count + 1);
        Put(key, counter);
        return;
      }
      if key !in counters && |counters| >= maxKeys { evicted := MakeRoom(key, now); }
      counter := Counter(1, if ttl != 0 then Some(now + ttl) else None);
      Put(key, counter);
    }

    /** The middleware, from the resolved base key on. */
    method Request(baseKey: string, scope: string, limit: int, windowMs: nat, now: nat)
      returns (d: Decision, ghost evicted: set<string>)
      requires Valid() && clock <= now
      modifies this
      ensures clock == now && Valid()
      ensures PushedOut(evicted, old(counters), old(places), keyPrefix + scope + ":" + baseKey, maxKeys, now)
      ensures history == old(history)
        + [Evicted(evicted, now)] + [Hit(baseKey, keyPrefix + scope + ":" + baseKey, limit, windowMs, now)]
      ensures var i := |old(history)| + 1; var o := Opening(history, i);
        && (d.admitted <==> Admitted(history, i))
        && (d.admitted ==> d.remaining == limit - Hits(history[o..], history[i].key))
        && d.resetAt == (if history[o].windowMs != 0 then history[o].now + history[o].windowMs else now + windowMs)
      ensures !d.admitted ==> d.remaining == 0
      ensures d.retryAfter >= 1 && d.resetAt <= now + 1000 * d.retryAfter
      ensures d.retryAfter == 1 || now + 1000 * (d.retryAfter - 1) < d.resetAt
    {
      hide CounterOf, Bump, Makers, Opening, Hits, Agrees, Covered, Remember, LiveAt, Find, Admitted, Monotone, Placed;
      hide PushedOut, Honest;
      ghost var h, was, index := history, counters, keyIndex;
      var key := keyPrefix + scope + ":" + baseKey;
      RememberKey(baseKey, key);
      var counter;
      counter, evicted := Incr(key, windowMs, now);
      var resetAt := if counter.expiresAt.Some? then counter.expiresAt.value else now + windowMs;
      var remaining := if limit > counter.count then limit - counter.count else 0;
      var admitted := counter.count <= limit;
      var wait := (resetAt - now + 999) / 1000;
      d := Decision(admitted, remaining, resetAt, if wait > 1 then wait else 1);
      ghost var gone, hit := Evicted(evicted, now), Hit(baseKey, key, limit, windowMs, now);
      AgreesLater(was, h, clock, now);
      RequestRecorded(was, counters, index, h, gone, hit);
      HonestAfterHit(index, h, gone, hit);
      history, clock := h + [gone] + [hit], now;
      LastOfWindow(history);
      assert history[..|h| + 1] == h + [gone];
    }

    /** Get: the counter at `key`, dropping it when it has expired. */
    method Get(key: string, now: nat) returns (counter: Option<Counter>)
      requires Placed(places, counters, next)
      modifies `counters, `places
      ensures Placed(places, counters, next)
      ensures counter == LiveAt(Find(old(counters), key), now)
      ensures forall k :: LiveAt(Find(counters, k), now) == LiveAt(Find(old(counters), k), now)
    {
      if key !in counters { return None; }
      if counters[key].expiresAt.Some? && counters[key].expiresAt.value <= now {
        counters, places := counters - {key}, places - {key};
        return None;
      }
      return Some(counters[key]);
    }

    /**
      The first live candidate is reported, with its expiry; nothing only if no counter that `key`
      made requests on is live.
     */
    method Check(key: string, now: nat) returns (entry: Option<(nat, nat)>)
      requires Valid() && clock <= now
      modifies `counters, `places, `clock
      ensures clock == now && Valid()
      ensures entry.None? ==> forall k :: key in Makers(history, k) ==> LiveAt(CounterOf(history, k), now).None?
      ensures entry ==
        match FirstLive(history, Candidates(keyPrefix, keyIndex, key), now)
        case None => None
        case Some(c) => Some((c.count, c.expiresAt.UnwrapOr(now)))
    {
      AgreesLater(counters, history, clock, now);
      clock := now;
      hide CounterOf, Makers, Placed;
      var candidates := GetCandidateKeys(key);
      for i := 0 to |candidates|
        invariant Placed(places, counters, next) && Agrees(counters, history, now) && clock == now
        invariant forall j :: 0 <= j < i ==> LiveAt(CounterOf(history, candidates[j]), now).None?
        invariant FirstLive(history, candidates, now) == FirstLive(history, candidates[i..], now)
      {
        var counter := Get(candidates[i], now);
        assert candidates[i..][1..] == candidates[i + 1..];
        if counter.Some? {
          return Some((counter.value.count, counter.value.expiresAt.UnwrapOr(now)));
        }
      }
      entry := None;
    }

    /** Afterwards no counter that `key` made requests on is left; every other counter is untouched. */
    method ResetKey(key: string, now: nat) returns (deleted: bool)
      requires Valid() && clock <= now
      modifies this
      ensures clock == now && Valid()
      ensures var candidates := SetOf(Candidates(keyPrefix, old(keyIndex), key));
        && history == old(history) + [Reset(candidates, now)]
        && counters == old(counters) - candidates
        && (deleted <==> exists k :: k in candidates && k in old(counters))
      ensures forall k :: key in Makers(old(history), k) ==> k !in counters
      ensures Forgotten(old(keyIndex), keyIndex, key, Purged(keyPrefix, old(keyIndex), key))
    {
      hide CounterOf, Makers, Agrees, Covered, Monotone, Placed, Forget, StillIndexed, Honest;
      ghost var h, was, index := history, counters, keyIndex;
      AllIndexed(keyPrefix, index, key);
      var candidates := GetCandidateKeys(key);
      deleted := DeleteAll(candidates, key);
      AgreesLater(was, h, clock, now);
      ResetRecorded(was, index, keyIndex, h, candidates, key, now);
      HonestAfterReset(index, keyIndex, h, key, Purged(keyPrefix, index, key), Reset(SetOf(candidates), now));
      history, clock := h + [Reset(SetOf(candidates), now)], now;
    }

    method DeleteOne(fullKey: string, key: string) returns (there: bool)
      requires Placed(places, counters, next)
      modifies `counters, `places, `keyIndex
      ensures Placed(places, counters, next) && counters == old(counters) - {fullKey}
      ensures there == (fullKey in old(counters)) && keyIndex == Forget(old(keyIndex), key, fullKey)
    {
      there := fullKey in counters;
      PlacedWithout(places, counters, next, fullKey);
      counters, places := counters - {fullKey}, places - {fullKey};
      ForgetKey(key, fullKey);
    }

    /** The loop of reset over its candidates. */
    method DeleteAll(candidates: seq<string>, key: string) returns (deleted: bool)
      requires candidates != [] && Placed(places, counters, next) && StillIndexed(keyIndex, keyIndex, candidates)
      requires key in keyIndex ==> forall k :: k in keyIndex[key] ==> k in candidates
      modifies `counters, `places, `keyIndex
      ensures Placed(places, counters, next) && counters == old(counters) - SetOf(candidates)
      ensures deleted <==> exists k :: k in SetOf(candidates) && k in old(counters)
      ensures StillIndexed(old(keyIndex), keyIndex, candidates)
      ensures Forgotten(old(keyIndex), keyIndex, key, candidates[if key in old(keyIndex) then 1 else 0..])
    {
      hide Placed, Forget, StillIndexed, Forgotten;
      ghost var was, index := counters, keyIndex;
      ghost var skipped := if key in index then 1 else 0;
      deleted := false;
      for i := 0 to |candidates|
        invariant Placed(places, counters, next) && counters == was - SetOf(candidates[..i])
        invariant deleted <==> exists k :: k in candidates[..i] && k in was
        invariant StillIndexed(index, keyIndex, candidates)
        invariant if i == 0 then keyIndex == index else Forgotten(index, keyIndex, key, candidates[..i][skipped..])
      {
        var k := candidates[i];
        assert candidates[..i + 1] == candidates[..i] + [k];
        ForgetKeepsOthers(index, keyIndex, candidates, key, k);
        if i == 0 {
          ForgetFirst(index, key, k);
          assert candidates[..1][skipped..] == if key in index then [] else [k];
        } else {
          ForgetNext(index, keyIndex, key, candidates[..i][skipped..], k);
          assert candidates[..i + 1][skipped..] == candidates[..i][skipped..] + [k];
        }
        var there := DeleteOne(k, key);
        deleted := there || deleted;
      }
      assert candidates[..|candidates|] == candidates;
    }
  }

  lemma HonestAfterReset(was: Index, index: Index, h: seq<Event>, key: string, gone: seq<string>, e: Event)
    requires Honest(was, h) && Forgotten(was, index, key, gone)
    ensures Honest(index, h + [e])
  {
    HonestLater(was, index, h, [e]);
  }
}
