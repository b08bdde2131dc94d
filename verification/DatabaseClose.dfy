/** The registrations of DatabaseService, and how it closes the clients behind them. */
module DatabaseClose {
  import opened Base

  /** A database object: the client behind it, and what can be called to close it. */
  datatype Db = Db(id: int, client: int, canDisconnect: bool, clientCanClose: bool)

  /** The `close` option: off, the built-in closers, or a function of the application. */
  datatype CloseOption = Off | BuiltIn | Custom

  datatype Attempt = Attempt(client: int, name: string)

  /** a < b for strings. */
  predicate Before(a: string, b: string)
    decreases |a|
  {
    b != "" && (a == "" || a[0] < b[0] || (a[0] == b[0] && Before(a[1..], b[1..])))
  }

  lemma {:induction false} BeforeIsTotal(a: string, b: string)
    ensures a == b || Before(a, b) || Before(b, a)
    decreases |a|
  {
    if a != "" && b != "" && a[0] == b[0] {
      BeforeIsTotal(a[1..], b[1..]);
      assert a == [a[0]] + a[1..] && b == [b[0]] + b[1..];
    }
  }

  lemma {:induction false} BeforeIsTransitive(a: string, b: string, c: string)
    requires Before(a, b) && Before(b, c)
    ensures Before(a, c)
    decreases |a|
  {
    if a != "" && a[0] == b[0] && b[0] == c[0] { BeforeIsTransitive(a[1..], b[1..], c[1..]); }
  }

  lemma {:induction false} BeforeIsStrict(a: string, b: string)
    requires Before(a, b)
    ensures !Before(b, a)
    decreases |a|
  {
    if a != "" && a[0] == b[0] { BeforeIsStrict(a[1..], b[1..]); }
  }

  lemma NotBefore(a: string, b: string, c: string)
    requires !Before(a, b) && !Before(b, c)
    ensures !Before(a, c)
  {
    BeforeIsTotal(b, c);
    if Before(a, c) && Before(c, b) { BeforeIsTransitive(a, c, b); }
  }

  /** The texts agree on `common`, and then the first ends or has the smaller character. */
  ghost predicate Smaller(a: string, b: string, common: string) {
    && common <= a && common <= b && |common| < |b|
    && (|common| == |a| || a[|common|] < b[|common|])
  }

  /** The order of names is that of their first difference. */
  lemma {:induction false} BeforeIsFirstDifference(a: string, b: string)
    ensures Before(a, b) <==> exists common :: Smaller(a, b, common)
    decreases |a|
  {
    if Before(a, b) {
      if a == "" || a[0] < b[0] {
        assert Smaller(a, b, "");
      } else {
        BeforeIsFirstDifference(a[1..], b[1..]);
        var common :| Smaller(a[1..], b[1..], common);
        assert a == [a[0]] + a[1..] && b == [b[0]] + b[1..];
        assert Smaller(a, b, [a[0]] + common);
      }
    }
    if common :| Smaller(a, b, common) {
      if common != "" {
        assert a[0] == common[0] == b[0] && common[1..] <= a[1..] && common[1..] <= b[1..];
        assert Smaller(a[1..], b[1..], common[1..]);
        BeforeIsFirstDifference(a[1..], b[1..]);
      }
    }
  }

  /** resolveCloser finds something to call, or the application's function is called on everything. */
  predicate Closable(close: CloseOption, db: Db) {
    close == Custom || (close == BuiltIn && (db.canDisconnect || db.clientCanClose))
  }

  lemma WhatCanBeClosed(close: CloseOption, db: Db)
    ensures close == Off ==> !Closable(close, db)
    ensures close == Custom ==> Closable(close, db)
    ensures close == BuiltIn ==> (Closable(close, db) <==> db.canDisconnect || db.clientCanClose)
  {}

  /** `name` is the least name under which a closable database with this client was ever registered. */
  ghost predicate IsLeastName(close: CloseOption, names: set<(Db, string)>, client: int, name: string) {
    && (exists p :: p in names && Closable(close, p.0) && p.0.client == client && p.1 == name)
    && (forall p :: p in names && Closable(close, p.0) && p.0.client == client ==> !Before(p.1, name))
  }

  /** No client twice. */
  ghost predicate EachOnce(attempts: seq<Attempt>) {
    forall i, j :: 0 <= i < j < |attempts| ==> attempts[i].client != attempts[j].client
  }

  ghost predicate Tracks(attempts: seq<Attempt>, clients: set<int>) {
    && (forall i :: 0 <= i < |attempts| ==> attempts[i].client in clients)
    && (forall c :: c in clients ==> exists i :: 0 <= i < |attempts| && attempts[i].client == c)
  }

  lemma AttemptOnce(attempts: seq<Attempt>, clients: set<int>, a: Attempt)
    requires EachOnce(attempts) && Tracks(attempts, clients) && a.client !in clients
    ensures EachOnce(attempts + [a]) && Tracks(attempts + [a], clients + {a.client})
  {
    var next := attempts + [a];
    forall c | c in clients + {a.client} ensures exists i :: 0 <= i < |next| && next[i].client == c {
      if c == a.client {
        assert next[|attempts|].client == c;
      } else {
        var i :| 0 <= i < |attempts| && attempts[i].client == c;
        assert next[i].client == c;
      }
    }
  }

  class DatabaseService {
    const close: CloseOption
    var registeredDatabases: map<Db, string>
    /** The container's `Database:name` entries. */
    var registry: map<string, Db>
    var closedClients: set<int>
    /** The clients whose close failed, once onDestroy has run. */
    var closePromise: Option<set<int>>
    /** Every close that was attempted, with the name it was reported under. */
    var attempts: seq<Attempt>
    /** Every registration that was ever made. */
    ghost var names: set<(Db, string)>

    ghost predicate Valid() reads this {
      close != Off ==>
        && EachOnce(attempts) && Tracks(attempts, closedClients)
        && (forall db :: db in registeredDatabases ==> (db, registeredDatabases[db]) in names)
        && (forall p :: p in names ==> p.0 in registeredDatabases && !Before(p.1, registeredDatabases[p.0]))
        && (forall name :: name in registry ==> (registry[name], name) in names)
    }

    constructor (close: CloseOption)
      ensures Valid() && this.close == close && closePromise == None
      ensures attempts == [] && names == {} && registry == map[]
    {
      this.close := close;
      registeredDatabases, registry, closedClients, closePromise, attempts, names := map[], map[], {}, None, [], {};
    }

    /** A database whose connection fails is not offered, but it is closed with the others. */
    method Register(name: string, db: Db, connectFails: bool) returns (ok: bool)
      requires Valid()
      modifies `registeredDatabases, `registry, `names
      ensures Valid() && ok == (name != "" && !connectFails)
      ensures names == if name == "" then old(names) else old(names) + {(db, name)}
      ensures registry == if ok then old(registry)[name := db] else old(registry)
    {
      if name == "" { return false; }
      names := names + {(db, name)};
      if close != Off {
        if db !in registeredDatabases || Before(name, registeredDatabases[db]) {
          if db in registeredDatabases {
            forall p | p in names && p.0 == db ensures !Before(p.1, name) {
              if p.1 != name && Before(p.1, name) { BeforeIsTransitive(p.1, name, registeredDatabases[db]); }
              if p.1 == name && Before(name, name) { BeforeIsStrict(name, name); }
            }
          } else if Before(name, name) {
            BeforeIsStrict(name, name);
          }
          registeredDatabases := registeredDatabases[db := name];
        }
      }
      if connectFails { return false; }
      registry := registry[name := db];
      return true;
    }

    /** The next entry of the sorted list: no other has a smaller name. */
    method Least(rest: set<Db>) returns (least: Db)
      requires rest != {} && rest <= registeredDatabases.Keys
      ensures least in rest
      ensures forall db :: db in rest ==> !Before(registeredDatabases[db], registeredDatabases[least])
    {
      least :| least in rest;
      var todo := rest;
      while todo != {}
        invariant todo <= rest && least in rest
        invariant forall db :: db in rest - todo ==> !Before(registeredDatabases[db], registeredDatabases[least])
      {
        var db :| db in todo;
        todo := todo - {db};
        if Before(registeredDatabases[db], registeredDatabases[least]) {
          forall d | d in rest - todo ensures !Before(registeredDatabases[d], registeredDatabases[db]) {
            if Before(registeredDatabases[d], registeredDatabases[db]) {
              if d == db {
                BeforeIsStrict(registeredDatabases[d], registeredDatabases[db]);
              } else {
                BeforeIsTransitive(registeredDatabases[d], registeredDatabases[db], registeredDatabases[least]);
              }
            }
          }
          least := db;
        }
      }
    }

    /** What closeConnections is going to run: for each client the name of its first entry. */
    method Closers() returns (closers: map<int, string>)
      requires Valid() && close != Off
      ensures forall c :: c in closers <==>
        c !in closedClients && exists p :: p in names && Closable(close, p.0) && p.0.client == c
      ensures forall c :: c in closers ==> IsLeastName(close, names, c, closers[c])
    {
      closers := map[];
      ghost var from: map<int, Db> := map[];
      var rest := registeredDatabases.Keys;
      while rest != {}
        invariant rest <= registeredDatabases.Keys && from.Keys == closers.Keys
        invariant forall c :: c in closers ==> c !in closedClients && NamesCloser(from[c], rest, c, closers[c])
        invariant forall db ::
          db in registeredDatabases.Keys - rest && Closable(close, db) && db.client !in closedClients ==>
          db.client in closers && !Before(registeredDatabases[db], closers[db.client])
        invariant forall d, r :: d in registeredDatabases.Keys - rest && r in rest ==>
          !Before(registeredDatabases[r], registeredDatabases[d])
      {
        var db := Least(rest);
        rest := rest - {db};
        if !Closable(close, db) { continue; }
        if db.client !in closedClients && db.client !in closers {
          closers := closers[db.client := registeredDatabases[db]];
          from := from[db.client := db];
        }
      }
      forall c | c in closers ensures IsLeastName(close, names, c, closers[c]) {
        assert (from[c], closers[c]) in names;
        forall p | p in names && Closable(close, p.0) && p.0.client == c ensures !Before(p.1, closers[c]) {
          NotBefore(p.1, registeredDatabases[p.0], closers[c]);
        }
      }
    }

    ghost predicate NamesCloser(db: Db, rest: set<Db>, client: int, name: string) reads this {
      && db in registeredDatabases && db !in rest && Closable(close, db) && db.client == client
      && registeredDatabases[db] == name
    }

    /** One close, reported under `name`. The client counts as closed before it is known whether that fails. */
    method CloseClient(client: int, name: string)
      requires EachOnce(attempts) && Tracks(attempts, closedClients) && client !in closedClients
      modifies `closedClients, `attempts
      ensures EachOnce(attempts) && Tracks(attempts, closedClients)
      ensures closedClients == old(closedClients) + {client} && attempts == old(attempts) + [Attempt(client, name)]
    {
      AttemptOnce(attempts, closedClients, Attempt(client, name));
      closedClients := closedClients + {client};
      attempts := attempts + [Attempt(client, name)];
    }

    /** closeConnections: every client is attempted, whichever of them fail. */
    method CloseConnections(failing: set<int>) returns (failed: set<int>)
      requires Valid()
      modifies `closedClients, `attempts
      ensures Valid()
      ensures close == Off ==> failed == {} && closedClients == old(closedClients) && attempts == old(attempts)
      ensures close != Off ==>
        && (forall p :: p in names && Closable(close, p.0) ==> p.0.client in closedClients)
        && (forall c :: c in failed <==> c in failing && c in closedClients && c !in old(closedClients))
        && old(closedClients) <= closedClients && old(attempts) <= attempts
        && (forall i :: |old(attempts)| <= i < |attempts| ==>
          attempts[i].client !in old(closedClients) && IsLeastName(close, names, attempts[i].client, attempts[i].name))
    {
      hide IsLeastName, Before, Closable, EachOnce, Tracks;
      failed := {};
      if close == Off { return; }
      var closers := Closers();
      ghost var was, before := closedClients, attempts;
      var rest := closers.Keys;
      while rest != {}
        invariant rest <= closers.Keys && Valid()
        invariant closedClients == was + (closers.Keys - rest)
        invariant forall c :: c in failed <==> c in failing && c in closers && c !in rest
        invariant before <= attempts && forall i :: |before| <= i < |attempts| ==>
          attempts[i].client in closers && closers[attempts[i].client] == attempts[i].name
      {
        var client :| client in rest;
        rest := rest - {client};
        CloseClient(client, closers[client]);
        if client in failing { failed := failed + {client}; }
      }
    }

    /** The first call closes; every later call, whatever was registered since, repeats its outcome. */
    method OnDestroy(failing: set<int>) returns (failed: set<int>)
      requires Valid()
      modifies `closedClients, `attempts, `closePromise
      ensures Valid() && closePromise == Some(failed)
      ensures close == Off ==> closedClients == old(closedClients) && attempts == old(attempts)
      ensures old(closePromise).None? && close == Off ==> failed == {}
      ensures old(closePromise).Some? ==>
        closePromise == old(closePromise) && closedClients == old(closedClients) && attempts == old(attempts)
      ensures old(closePromise).None? && close != Off ==>
        && (forall p :: p in names && Closable(close, p.0) ==> p.0.client in closedClients)
        && (forall c :: c in failed <==> c in failing && c in closedClients && c !in old(closedClients))
        && old(attempts) <= attempts
        && (forall i :: |old(attempts)| <= i < |attempts| ==>
          attempts[i].client !in old(closedClients) && IsLeastName(close, names, attempts[i].client, attempts[i].name))
    {
      if closePromise.Some? { return closePromise.value; }
      failed := CloseConnections(failing);
      closePromise := Some(failed);
    }

    /**
      Disconnects what is still open and forgets the registrations in the container. Without
      closing, every registration that can be disconnected is, and nothing is remembered.
     */
    method Clear()
      requires Valid()
      modifies `closedClients, `attempts, `registry
      ensures Valid() && registry == map[]
      ensures old(closedClients) <= closedClients && old(attempts) <= attempts
      ensures close != Off ==> forall name :: name in old(registry) && old(registry)[name].canDisconnect ==>
        old(registry)[name].client in closedClients
      ensures forall i :: |old(attempts)| <= i < |attempts| ==> Disconnects(old(registry), attempts[i])
      ensures close != Off ==>
        forall i :: |old(attempts)| <= i < |attempts| ==> attempts[i].client !in old(closedClients)
      ensures close == Off ==>
        && closedClients == old(closedClients)
        && forall name :: name in old(registry) && old(registry)[name].canDisconnect ==>
          Attempt(old(registry)[name].client, name) in attempts[|old(attempts)|..]
    {
      hide Before, EachOnce, Tracks;
      ghost var was, before := closedClients, attempts;
      var rest := registry.Keys;
      while rest != {}
        invariant rest <= registry.Keys && Valid() && registry == old(registry)
        invariant was <= closedClients && before <= attempts
        invariant close != Off ==> forall name :: name in registry && name !in rest && registry[name].canDisconnect ==>
          registry[name].client in closedClients
        invariant forall i :: |before| <= i < |attempts| ==> Disconnects(registry, attempts[i])
        invariant close != Off ==> forall i :: |before| <= i < |attempts| ==> attempts[i].client !in was
        invariant close == Off ==>
          && closedClients == was
          && forall name :: name in registry && name !in rest && registry[name].canDisconnect ==>
            Attempt(registry[name].client, name) in attempts[|before|..]
      {
        var name :| name in rest;
        rest := rest - {name};
        var db := registry[name];
        if db.canDisconnect && (close == Off || db.client !in closedClients) {
          ghost var earlier := attempts;
          if close != Off {
            CloseClient(db.client, name);
          } else {
            attempts := attempts + [Attempt(db.client, name)];
          }
          assert attempts[|before|..] == earlier[|before|..] + [Attempt(db.client, name)];
        }
      }
      registry := map[];
    }
  }

  /** The attempt is on a registration that can be disconnected, under its name. */
  predicate Disconnects(registry: map<string, Db>, a: Attempt) {
    a.name in registry && registry[a.name].client == a.client && registry[a.name].canDisconnect
  }
}
