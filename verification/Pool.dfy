/** The pool of idle SMTP connections.  Clients are identities; closing one is recorded in the field closed. */
module Pool {
  import opened Common

  type Client = nat

  datatype Conn = Conn(client: Client, mxHost: string, sourceIp: string, timestamp: int)

  const MAX_IDLE: nat := 10

  function PoolKey(mxHost: string, sourceIp: string): string {
    mxHost + "|" + sourceIp
  }

  /** Source IPs are addresses or empty, so they hold no bar: the last bar of a key ends the host. */
  lemma PoolKeyIsInjective(host: string, ip: string, host': string, ip': string)
    requires '|' !in ip && '|' !in ip' && PoolKey(host, ip) == PoolKey(host', ip')
    ensures host == host' && ip == ip'
  {
    var k := PoolKey(host, ip);
    assert k[|host|] == '|' && k[|host'|] == '|';
    assert k[|host| + 1..] == ip && k[|host'| + 1..] == ip';
    assert k[..|host|] == host && k[..|host'|] == host';
  }

  /** Without that, two pairs can share a key. */
  lemma PoolKeyCanCollide()
    ensures PoolKey("a|b", "c") == PoolKey("a", "b|c")
  {
  }

  predicate Expired(c: Conn, now: int, ttl: int) {
    now - c.timestamp > ttl
  }

  function Clients(conns: seq<Conn>): set<Client> {
    set i | 0 <= i < |conns| :: conns[i].client
  }

  function Active(conns: seq<Conn>, now: int, ttl: int): (r: seq<Conn>)
    ensures forall c :: c in r <==> c in conns && !Expired(c, now, ttl)
    ensures |r| <= |conns|
  {
    if conns == [] then []
    else
      var n := |conns| - 1;
      assert conns == conns[..n] + [conns[n]];
      Active(conns[..n], now, ttl) + (if Expired(conns[n], now, ttl) then [] else [conns[n]])
  }

  function Stale(conns: seq<Conn>, now: int, ttl: int): set<Client> {
    set i | 0 <= i < |conns| && Expired(conns[i], now, ttl) :: conns[i].client
  }

  type Table = map<string, seq<Conn>>

  function IdleAt(t: Table, key: string): seq<Conn> {
    if key in t then t[key] else []
  }

  /** The index of the most recent connection that has not expired, or -1. */
  function LastLive(conns: seq<Conn>, now: int, ttl: int): (i: int)
    ensures -1 <= i < |conns|
    ensures i >= 0 ==> !Expired(conns[i], now, ttl)
    ensures forall j :: i < j < |conns| ==> Expired(conns[j], now, ttl)
  {
    if conns == [] then -1
    else if !Expired(conns[|conns| - 1], now, ttl) then |conns| - 1
    else LastLive(conns[..|conns| - 1], now, ttl)
  }

  function Expire(t: Table, now: int, ttl: int, todo: set<string>): Table {
    map k | k in t && (k in todo || Active(t[k], now, ttl) != []) ::
      if k in todo then t[k] else Active(t[k], now, ttl)
  }

  function StaleIn(t: Table, now: int, ttl: int, keys: set<string>): set<Client> {
    set k, c | k in keys && k in t && c in Stale(t[k], now, ttl) :: c
  }

  /** Of the connections idle under a key, exactly those within their time to live are left. */
  ghost predicate KeptAt(before: Table, after: Table, key: string, now: int, ttl: int) {
    forall c: Conn :: c in IdleAt(after, key) <==> c in IdleAt(before, key) && now - c.timestamp <= ttl
  }

  /** Dead, or expired at one of the readings up to the n-th. */
  ghost predicate Unusable(c: Conn, clock: nat -> int, n: nat, alive: Client -> bool, ttl: int) {
    !alive(c.client) || exists i: nat :: i <= n && clock(i) - c.timestamp > ttl
  }

  ghost predicate NeverExpired(c: Conn, clock: nat -> int, ttl: int) {
    forall i: nat :: clock(i) - c.timestamp <= ttl
  }

  class ConnectionPool {
    const ttl: int
    var connections: Table
    var closed: set<Client>

    constructor (ttlSeconds: int)
      ensures ttl == (if ttlSeconds <= 0 then 5 else ttlSeconds) && connections == map[] && closed == {}
    {
      ttl := if ttlSeconds <= 0 then 5 else ttlSeconds;
      connections, closed := map[], {};
    }

    method Put(client: Client, mxHost: string, sourceIp: string, now: int)
      modifies this
      ensures
        var key := PoolKey(mxHost, sourceIp);
        var conns := IdleAt(old(connections), key);
        if |conns| >= MAX_IDLE then connections == old(connections) && closed == old(closed) + {client}
        else
          && connections == old(connections)[key := conns + [Conn(client, mxHost, sourceIp, now)]]
          && closed == old(closed)
    {
      var key := PoolKey(mxHost, sourceIp);
      var conns := if key in connections then connections[key] else [];
      if |conns| >= MAX_IDLE {
        closed := closed + {client};
        return;
      }
      connections := connections[key := conns + [Conn(client, mxHost, sourceIp, now)]];
    }

    /** Pops from the end until a connection has not expired; the expired ones on the way are closed. */
    method PopCandidate(key: string, now: int) returns (candidate: Option<Client>)
      modifies this
      ensures
        var was := IdleAt(old(connections), key);
        var i := LastLive(was, now, ttl);
        && IdleAt(connections, key) == (if i < 0 then [] else was[..i])
        && (forall k :: k != key ==> IdleAt(connections, k) == IdleAt(old(connections), k))
        && closed == old(closed) + Clients(was[i + 1..])
        && candidate == if i < 0 then None else Some(was[i].client)
    {
      hide Clients, LastLive;
      ghost var was := IdleAt(connections, key);
      ghost var i := LastLive(was, now, ttl);
      var conns := if key in connections then connections[key] else [];
      NoClients(was);
      while |conns| > 0
        invariant conns == was[..|conns|] && i < |conns| <= |was|
        invariant IdleAt(connections, key) == conns
        invariant forall k :: k != key ==> IdleAt(connections, k) == IdleAt(old(connections), k)
        invariant closed == old(closed) + Clients(was[|conns|..])
      {
        var last := |conns| - 1;
        var conn := conns[last];
        assert was[last..] == [conn] + was[last + 1..];
        conns := conns[..last];
        connections := connections[key := conns];
        if now - conn.timestamp > ttl {
          closed := closed + {conn.client};
          ClientsCons(conn, was[last + 1..]);
          continue;
        }
        return Some(conn.client);
      }
      return None;
    }

    /**
     Pops candidates until one answers NOOP; each reading of the clock is for one pop.  The client returned is the
     most recent one that had neither expired nor died, and all the later ones are closed.
     */
    method Get(mxHost: string, sourceIp: string, clock: nat -> int, alive: Client -> bool)
      returns (client: Option<Client>, popped: nat, ghost index: int)
      modifies this
      ensures
        var key := PoolKey(mxHost, sourceIp);
        var was := IdleAt(old(connections), key);
        && -1 <= index < |was|
        && IdleAt(connections, key) == (if index < 0 then [] else was[..index])
        && (forall k :: k != key ==> IdleAt(connections, k) == IdleAt(old(connections), k))
        && closed == old(closed) + Clients(was[index + 1..])
        && client == (if index < 0 then None else Some(was[index].client))
        && (client.Some? ==> alive(client.value) && clock(popped) - was[index].timestamp <= ttl)
        && (forall j :: index < j < |was| ==> Unusable(was[j], clock, popped, alive, ttl))
        && (forall j :: 0 <= j < |was| && alive(was[j].client) && NeverExpired(was[j], clock, ttl) ==>
              client.Some? && index >= j)
    {
      hide Clients, LastLive, IdleAt, Unusable, NeverExpired;
      var key := PoolKey(mxHost, sourceIp);
      ghost var was := IdleAt(connections, key);
      popped := 0;
      ghost var left := |was|;
      NoClients(was);
      assert was[..left] == was;
      while true
        invariant 0 <= left <= |was|
        invariant IdleAt(connections, key) == was[..left]
        invariant forall k :: k != key ==> IdleAt(connections, k) == IdleAt(old(connections), k)
        invariant closed == old(closed) + Clients(was[left..])
        invariant forall j :: left <= j < |was| ==> Unusable(was[j], clock, popped, alive, ttl)
        decreases left
      {
        ghost var before := left;
        var candidate := PopCandidate(key, clock(popped));
        index := LastLive(was[..before], clock(popped), ttl);
        assert was[..before][index + 1..] + was[before..] == was[index + 1..];
        ClientsConcat(was[..before][index + 1..], was[before..]);
        SkippedAreUnusable(was, before, clock, popped, alive, ttl);
        LiveIsNotSkipped(was, index, clock, popped, alive, ttl);
        if candidate.None? {
          return None, popped, -1;
        }
        assert was[..before][..index] == was[..index];
        if alive(candidate.value) {
          return candidate, popped, index;
        }
        closed := closed + {candidate.value};
        ClientsCons(was[index], was[index + 1..]);
        assert was[index..] == [was[index]] + was[index + 1..];
        left := index;
        popped := popped + 1;
      }
    }

    method CleanupExpired(now: int)
      modifies this
      ensures connections == Expire(old(connections), now, ttl, {})
      ensures forall key :: KeptAt(old(connections), connections, key, now, ttl)
      ensures forall key :: key in connections ==> connections[key] != []
      ensures closed == old(closed) + StaleIn(old(connections), now, ttl, old(connections).Keys)
    {
      hide Stale, Active, Expire, StaleIn;
      var todo := connections.Keys;
      ghost var was := connections;
      ExpireStart(was, now, ttl);
      while todo != {}
        invariant todo <= was.Keys
        invariant connections == Expire(was, now, ttl, todo)
        invariant closed == old(closed) + StaleIn(was, now, ttl, was.Keys - todo)
        decreases |todo|
      {
        var key :| key in todo;
        ExpireStep(was, now, ttl, todo, key);
        var active, dead := Sift(connections[key], now);
        closed := closed + dead;
        if |active| == 0 {
          connections := connections - {key};
        } else {
          connections := connections[key := active];
        }
        todo := todo - {key};
      }
      assert was.Keys - {} == was.Keys;
      ExpireMeans(was, now, ttl);
    }

    /** The inner loop of the cleanup: the connections to keep and the clients to close. */
    method Sift(conns: seq<Conn>, now: int) returns (active: seq<Conn>, dead: set<Client>)
      ensures active == Active(conns, now, ttl) && dead == Stale(conns, now, ttl)
    {
      hide Stale;
      active, dead := [], {};
      NothingStale(now, ttl);
      for i := 0 to |conns|
        invariant active == Active(conns[..i], now, ttl) && dead == Stale(conns[..i], now, ttl)
      {
        assert conns[..i + 1][..i] == conns[..i];
        StaleSnoc(conns[..i + 1], now, ttl);
        if now - conns[i].timestamp > ttl {
          dead := dead + {conns[i].client};
        } else {
          active := active + [conns[i]];
        }
      }
      assert conns[..|conns|] == conns;
    }

    method CloseAll()
      modifies this
      ensures connections == map[]
      ensures closed == old(closed) + AllClients(old(connections), old(connections).Keys)
    {
      var todo := connections.Keys;
      ghost var was := connections;
      while todo != {}
        invariant todo <= was.Keys
        invariant connections == map k | k in was && k in todo :: was[k]
        invariant closed == old(closed) + AllClients(was, was.Keys - todo)
        decreases |todo|
      {
        var key :| key in todo;
        closed := closed + Clients(connections[key]);
        connections := connections - {key};
        todo := todo - {key};
      }
    }
  }

  function AllClients(t: Table, keys: set<string>): set<Client> {
    set k, c | k in keys && k in t && c in Clients(t[k]) :: c
  }

  lemma NoClients(conns: seq<Conn>)
    ensures Clients(conns[|conns|..]) == {}
  {
  }

  lemma NothingStale(now: int, ttl: int)
    ensures Stale([], now, ttl) == {}
  {
  }

  lemma StaleSnoc(conns: seq<Conn>, now: int, ttl: int)
    requires conns != []
    ensures
      var n := |conns| - 1;
      Stale(conns, now, ttl) ==
      Stale(conns[..n], now, ttl) + if Expired(conns[n], now, ttl) then {conns[n].client} else {}
  {
    var n := |conns| - 1;
    forall x | x in Stale(conns[..n], now, ttl) ensures x in Stale(conns, now, ttl) {
      var i :| 0 <= i < n && Expired(conns[..n][i], now, ttl) && conns[..n][i].client == x;
      assert conns[i].client == x;
    }
  }

  /** What a pop skips has expired; what was unusable before still is, at this reading and the next. */
  lemma SkippedAreUnusable(was: seq<Conn>, n: nat, clock: nat -> int, popped: nat, alive: Client -> bool, ttl: int)
    requires n <= |was| && forall j :: n <= j < |was| ==> Unusable(was[j], clock, popped, alive, ttl)
    ensures
      var i := LastLive(was[..n], clock(popped), ttl);
      && (forall j :: i < j < |was| ==> Unusable(was[j], clock, popped, alive, ttl))
      && (forall j :: i < j < |was| ==> Unusable(was[j], clock, popped + 1, alive, ttl))
      && (i >= 0 && !alive(was[i].client) ==> Unusable(was[i], clock, popped + 1, alive, ttl))
  {
    var i := LastLive(was[..n], clock(popped), ttl);
    forall j | i < j < |was|
      ensures Unusable(was[j], clock, popped, alive, ttl) && Unusable(was[j], clock, popped + 1, alive, ttl)
    {
      if j < n { assert was[..n][j] == was[j]; }
    }
  }

  lemma LiveIsNotSkipped(was: seq<Conn>, i: int, clock: nat -> int, popped: nat, alive: Client -> bool, ttl: int)
    requires -1 <= i < |was| && forall j :: i < j < |was| ==> Unusable(was[j], clock, popped, alive, ttl)
    ensures forall j :: 0 <= j < |was| && alive(was[j].client) && NeverExpired(was[j], clock, ttl) ==> i >= j
  {
  }

  lemma ExpireMeans(t: Table, now: int, ttl: int)
    ensures
      var e := Expire(t, now, ttl, {});
      && (forall key :: KeptAt(t, e, key, now, ttl))
      && (forall key :: key in e ==> e[key] != [])
  {
    var e := Expire(t, now, ttl, {});
    forall key ensures KeptAt(t, e, key, now, ttl) {
      if key in t { assert IdleAt(e, key) == Active(t[key], now, ttl); }
    }
  }

  lemma ExpireStart(t: Table, now: int, ttl: int)
    ensures Expire(t, now, ttl, t.Keys) == t && StaleIn(t, now, ttl, t.Keys - t.Keys) == {}
  {
  }

  lemma ExpireStep(t: Table, now: int, ttl: int, todo: set<string>, key: string)
    requires key in todo && todo <= t.Keys
    ensures
      var active, e := Active(t[key], now, ttl), Expire(t, now, ttl, todo);
      && key in e && e[key] == t[key]
      && Expire(t, now, ttl, todo - {key}) == (if active == [] then e - {key} else e[key := active])
      && StaleIn(t, now, ttl, t.Keys - (todo - {key})) ==
         StaleIn(t, now, ttl, t.Keys - todo) + Stale(t[key], now, ttl)
  {
    hide Active, Stale;
  }

  lemma ClientsCons(c: Conn, rest: seq<Conn>)
    ensures Clients([c] + rest) == {c.client} + Clients(rest)
  {
    var all := [c] + rest;
    forall x | x in Clients(rest) ensures x in Clients(all) {
      var i :| 0 <= i < |rest| && rest[i].client == x;
      assert all[i + 1].client == x;
    }
    assert all[0].client == c.client;
  }

  lemma ClientsConcat(a: seq<Conn>, b: seq<Conn>)
    ensures Clients(a + b) == Clients(a) + Clients(b)
  {
    var all := a + b;
    forall x | x in Clients(a) ensures x in Clients(all) {
      var i :| 0 <= i < |a| && a[i].client == x;
      assert all[i].client == x;
    }
    forall x | x in Clients(b) ensures x in Clients(all) {
      var i :| 0 <= i < |b| && b[i].client == x;
      assert all[|a| + i].client == x;
    }
  }
}
