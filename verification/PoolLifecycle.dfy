/**
 Who owns a connection, over all interleavings of requests, context ends, pool operations and cleanups.  A request
 arms a hook that closes its connection when its context ends; a pooled connection must have no hook left.
 */
module PoolLifecycle {
  import opened Pool

  type Request = nat

  datatype Place = Idle(key: string) | Taken(owner: Request) | Shut

  /** A request in progress: its client, and how far its one hook is: armed at all, disarmed after a success. */
  datatype Hold = Hold(client: Client, mxHost: string, sourceIp: string, armed: bool, disarmed: bool)

  /**
   place is the record of where each client ever seen is; hooks are the context hooks that are armed; closing are the
   clients of hooks that have started, in a goroutine of their own, and have not closed them yet.
   */
  datatype System = System(
    time: int, idle: Table, place: map<Client, Place>, holds: map<Request, Hold>, hooks: map<Request, Client>,
    closing: set<Client>)

  /** wait is the time that passes before the action. */
  datatype Action =
    | Dial(r: Request, c: Client, mxHost: string, sourceIp: string)
    | Take(r: Request, mxHost: string, sourceIp: string, wait: nat)
    | NoopFails(r: Request)
    | Arm(r: Request)
    | ContextEnds(r: Request)
    | HookCloses(c: Client)
    | Finish(r: Request, success: bool)
    | PutBack(r: Request, wait: nat)
    | Cleanup(wait: nat)
    | CloseAll

  predicate At(y: System, c: Client, p: Place) {
    c in y.place && y.place[c] == p
  }

  function Shutting(place: map<Client, Place>, gone: set<Client>): map<Client, Place> {
    map c | c in place :: if c in gone then Shut else place[c]
  }

  /** Close the client of a request and forget the request. */
  function Discard(y: System, r: Request): System
    requires r in y.holds
  {
    y.(place := y.place[y.holds[r].client := Shut], holds := y.holds - {r}, hooks := y.hooks - {r})
  }

  /** popCandidate for a request: expired ones on the way are closed. */
  function Pop(y: System, r: Request, mxHost: string, sourceIp: string, ttl: int): System {
    var key := PoolKey(mxHost, sourceIp);
    var was := IdleAt(y.idle, key);
    var i := LastLive(was, y.time, ttl);
    var place := Shutting(y.place, Clients(was[i + 1..]));
    if i < 0 then y.(idle := y.idle[key := []], place := place)
    else
      y.(idle := y.idle[key := was[..i]], place := place[was[i].client := Taken(r)],
         holds := y.holds[r := Hold(was[i].client, mxHost, sourceIp, false, false)])
  }

  function Put(y: System, r: Request): System
    requires r in y.holds
  {
    var h := y.holds[r];
    var key := PoolKey(h.mxHost, h.sourceIp);
    var was := IdleAt(y.idle, key);
    if |was| >= MAX_IDLE then Discard(y, r)
    else
      y.(idle := y.idle[key := was + [Conn(h.client, h.mxHost, h.sourceIp, y.time)]],
         place := y.place[h.client := Idle(key)], holds := y.holds - {r})
  }

  function Later(y: System, wait: nat): System {
    y.(time := y.time + wait)
  }

  /** One step; an action that does not apply leaves the system as it is. */
  function Apply(y: System, a: Action, ttl: int): System {
    match a
    case Dial(r, c, mxHost, sourceIp) =>
      if c in y.place || r in y.holds then y
      else y.(place := y.place[c := Taken(r)], holds := y.holds[r := Hold(c, mxHost, sourceIp, false, false)])
    case Take(r, mxHost, sourceIp, wait) =>
      if r in y.holds then y else Pop(Later(y, wait), r, mxHost, sourceIp, ttl)
    case NoopFails(r) =>
      if r in y.holds && r !in y.hooks then Discard(y, r) else y
    case Arm(r) =>
      if r in y.holds && !y.holds[r].armed
      then y.(hooks := y.hooks[r := y.holds[r].client], holds := y.holds[r := y.holds[r].(armed := true)]) else y
    case ContextEnds(r) =>
      if r in y.hooks then y.(closing := y.closing + {y.hooks[r]}, hooks := y.hooks - {r}) else y
    case HookCloses(c) =>
      if c in y.closing then y.(place := y.place[c := Shut], closing := y.closing - {c}) else y
    case Finish(r, success) =>
      if r !in y.holds || y.holds[r].disarmed then y
      else if success && r in y.hooks then
        y.(holds := y.holds[r := y.holds[r].(disarmed := true)], hooks := y.hooks - {r})
      else Discard(y, r)
    case PutBack(r, wait) =>
      if r in y.holds && y.holds[r].disarmed then Put(Later(y, wait), r) else y
    case Cleanup(wait) =>
      var now := Later(y, wait);
      now.(idle := Expire(y.idle, now.time, ttl, {}),
           place := Shutting(y.place, StaleIn(y.idle, now.time, ttl, y.idle.Keys)))
    case CloseAll =>
      y.(idle := map[], place := Shutting(y.place, AllClients(y.idle, y.idle.Keys)))
  }

  function Run(actions: seq<Action>, ttl: int): System {
    if actions == [] then System(0, map[], map[], map[], map[], {})
    else Apply(Run(actions[..|actions| - 1], ttl), actions[|actions| - 1], ttl)
  }

  // ---------------------------------------------------------------- the invariant

  /** An idle list holds distinct open clients put under its own key, oldest first, and no more than the cap. */
  predicate ListOk(y: System, key: string) {
    var l := IdleAt(y.idle, key);
    && |l| <= MAX_IDLE
    && (forall i :: 0 <= i < |l| ==>
          PoolKey(l[i].mxHost, l[i].sourceIp) == key && l[i].timestamp <= y.time && At(y, l[i].client, Idle(key)))
    && (forall i, j :: 0 <= i < j < |l| ==> l[i].client != l[j].client && l[i].timestamp <= l[j].timestamp)
  }

  predicate InList(y: System, key: string, c: Client) {
    var l := IdleAt(y.idle, key);
    exists i :: 0 <= i < |l| && l[i].client == c
  }

  /** The record of a client is true: an idle one is in its list, a taken one with its request. */
  predicate PlaceOk(y: System, c: Client) {
    c in y.place ==>
      match y.place[c]
      case Idle(key) => InList(y, key, c)
      case Taken(r) => r in y.holds && y.holds[r].client == c
      case Shut => true
  }

  /** A request holds its client, unless its hook closed it; one that may put it back holds it. */
  predicate HoldOk(y: System, r: Request) {
    r in y.holds ==>
      var h := y.holds[r];
      && (h.disarmed ==> h.armed)
      && (At(y, h.client, Taken(r)) || (At(y, h.client, Shut) && h.armed && !h.disarmed && r !in y.hooks))
  }

  predicate HookOk(y: System, r: Request) {
    r in y.hooks ==>
      && r in y.holds && y.hooks[r] == y.holds[r].client && y.holds[r].armed && !y.holds[r].disarmed
      && At(y, y.hooks[r], Taken(r)) && y.hooks[r] !in y.closing
  }

  /** A client that a hook is about to close is closed already or with a request that cannot put it back. */
  predicate ClosingOk(y: System, c: Client) {
    c in y.closing ==>
      && c in y.place
      && match y.place[c]
         case Idle(_) => false
         case Taken(r) => r in y.holds && y.holds[r].armed && !y.holds[r].disarmed && r !in y.hooks
         case Shut => true
  }

  ghost predicate Invariant(y: System) {
    && (forall key :: ListOk(y, key))
    && (forall c :: PlaceOk(y, c))
    && (forall r :: HoldOk(y, r))
    && (forall r :: HookOk(y, r))
    && (forall c :: ClosingOk(y, c))
  }

  /** Steps that leave the idle lists and the idle clients alone. */
  lemma ListsUntouched(y: System, y': System)
    requires forall key :: ListOk(y, key)
    requires y'.idle == y.idle && y.time <= y'.time
    requires forall c, key :: At(y, c, Idle(key)) ==> At(y', c, Idle(key))
    ensures forall key :: ListOk(y', key)
  {
    forall key ensures ListOk(y', key) { assert ListOk(y, key); }
  }

  lemma DiscardKeeps(y: System, r: Request)
    requires Invariant(y) && r in y.holds
    ensures Invariant(Discard(y, r))
  {
    var y' := Discard(y, r);
    assert HoldOk(y, r) && HookOk(y, r);
    ListsUntouched(y, y');
    forall c ensures PlaceOk(y', c) { assert PlaceOk(y, c); }
    forall q ensures HoldOk(y', q) { assert HoldOk(y, q); }
    forall q ensures HookOk(y', q) { assert HookOk(y, q); }
    forall c ensures ClosingOk(y', c) { assert ClosingOk(y, c) && PlaceOk(y, c); }
  }

  lemma ArmKeeps(y: System, r: Request, ttl: int)
    requires Invariant(y)
    ensures Invariant(Apply(y, Arm(r), ttl))
  {
    var y' := Apply(y, Arm(r), ttl);
    assert HoldOk(y, r) && HookOk(y, r);
    if r in y.holds { assert ClosingOk(y, y.holds[r].client); }
    RequestKeeps(y, y', r);
  }

  /** A step in which only the state of one request, and no place, changes. */
  lemma RequestKeeps(y: System, y': System, r: Request)
    requires Invariant(y) && y' == y.(holds := y'.holds, hooks := y'.hooks, closing := y'.closing)
    requires forall q :: q != r ==> (q in y'.holds <==> q in y.holds) && (q in y.holds ==> y'.holds[q] == y.holds[q])
    requires forall q :: q != r ==> (q in y'.hooks <==> q in y.hooks) && (q in y.hooks ==> y'.hooks[q] == y.hooks[q])
    requires r in y.holds ==>
               r in y'.holds && y'.holds[r].client == y.holds[r].client && (y'.holds[r].disarmed ==> y'.holds[r].armed)
    requires r in y.holds && At(y, y.holds[r].client, Shut) ==> y' == y
    requires r in y.holds || y' == y
    requires forall c :: c in y'.closing ==> c in y.closing || (r in y.holds && c == y.holds[r].client)
    requires HookOk(y', r)
    requires r in y.holds && y.holds[r].client in y'.closing ==>
               y'.holds[r].armed && !y'.holds[r].disarmed && r !in y'.hooks
    ensures Invariant(y')
  {
    ListsUntouched(y, y');
    assert HoldOk(y, r);
    forall c ensures PlaceOk(y', c) { assert PlaceOk(y, c); }
    forall q ensures HoldOk(y', q) { assert HoldOk(y, q); }
    forall q ensures HookOk(y', q) { assert HookOk(y, q) && HoldOk(y, q); }
    forall c ensures ClosingOk(y', c) { assert ClosingOk(y, c) && PlaceOk(y, c); }
  }

  lemma DialKeeps(y: System, r: Request, c: Client, mxHost: string, sourceIp: string, ttl: int)
    requires Invariant(y)
    ensures Invariant(Apply(y, Dial(r, c, mxHost, sourceIp), ttl))
  {
    var y' := Apply(y, Dial(r, c, mxHost, sourceIp), ttl);
    assert HookOk(y, r);
    ListsUntouched(y, y');
    forall k ensures PlaceOk(y', k) { assert PlaceOk(y, k); }
    forall q ensures HoldOk(y', q) { assert HoldOk(y, q); }
    forall q ensures HookOk(y', q) { assert HookOk(y, q); }
    forall k ensures ClosingOk(y', k) { assert ClosingOk(y, k) && PlaceOk(y, k); }
  }

  lemma EndKeeps(y: System, r: Request, ttl: int)
    requires Invariant(y)
    ensures Invariant(Apply(y, ContextEnds(r), ttl))
  {
    assert HoldOk(y, r) && HookOk(y, r);
    if r in y.holds { assert ClosingOk(y, y.holds[r].client); }
    RequestKeeps(y, Apply(y, ContextEnds(r), ttl), r);
  }

  lemma FinishKeeps(y: System, r: Request, success: bool, ttl: int)
    requires Invariant(y)
    ensures Invariant(Apply(y, Finish(r, success), ttl))
  {
    hide Discard;
    assert HoldOk(y, r) && HookOk(y, r);
    if r in y.holds && !y.holds[r].disarmed {
      if success && r in y.hooks {
        RequestKeeps(y, Apply(y, Finish(r, success), ttl), r);
      } else {
        DiscardKeeps(y, r);
      }
    }
  }

  lemma HookStep(y: System, c: Client, ttl: int)
    requires Invariant(y)
    ensures Invariant(Apply(y, HookCloses(c), ttl))
  {
    var y' := Apply(y, HookCloses(c), ttl);
    assert ClosingOk(y, c);
    ListsUntouched(y, y');
    forall k ensures PlaceOk(y', k) { assert PlaceOk(y, k); }
    forall r ensures HoldOk(y', r) { assert HoldOk(y, r); }
    forall r ensures HookOk(y', r) { assert HookOk(y, r); }
    forall k ensures ClosingOk(y', k) { assert ClosingOk(y, k); }
  }

  lemma LaterKeeps(y: System, wait: nat)
    requires Invariant(y)
    ensures Invariant(Later(y, wait))
  {
    var y' := Later(y, wait);
    ListsUntouched(y, y');
    forall c ensures PlaceOk(y', c) { assert PlaceOk(y, c); }
    forall r ensures HoldOk(y', r) { assert HoldOk(y, r); }
    forall r ensures HookOk(y', r) { assert HookOk(y, r); }
    forall c ensures ClosingOk(y', c) { assert ClosingOk(y, c); }
  }

  lemma PutKeeps(y: System, r: Request)
    requires Invariant(y) && r in y.holds && y.holds[r].disarmed
    ensures Invariant(Put(y, r))
  {
    var h := y.holds[r];
    if |IdleAt(y.idle, PoolKey(h.mxHost, h.sourceIp))| >= MAX_IDLE {
      DiscardKeeps(y, r);
    } else {
      AppendKeeps(y, r);
    }
  }

  lemma AppendKeeps(y: System, r: Request)
    requires Invariant(y) && r in y.holds && y.holds[r].disarmed
    requires |IdleAt(y.idle, PoolKey(y.holds[r].mxHost, y.holds[r].sourceIp))| < MAX_IDLE
    ensures Invariant(Put(y, r))
  {
    hide Discard;
    var y' := Put(y, r);
    var h := y.holds[r];
    var key := PoolKey(h.mxHost, h.sourceIp);
    var was, now := IdleAt(y.idle, key), IdleAt(y'.idle, key);
    assert HoldOk(y, r) && HookOk(y, r) && ListOk(y, key);
    assert now == was + [Conn(h.client, h.mxHost, h.sourceIp, y.time)];
    forall k ensures ListOk(y', k) { assert ListOk(y, k); }
    forall c ensures PlaceOk(y', c) {
      assert PlaceOk(y, c);
      if c == h.client {
        assert now[|was|].client == c;
      } else if At(y, c, Idle(key)) {
        var i :| 0 <= i < |was| && was[i].client == c;
        assert now[i].client == c;
      } else if c in y.place && y.place[c].Idle? {
        assert IdleAt(y'.idle, y.place[c].key) == IdleAt(y.idle, y.place[c].key);
      }
    }
    forall q ensures HoldOk(y', q) { assert HoldOk(y, q); }
    forall q ensures HookOk(y', q) { assert HookOk(y, q); }
    forall c ensures ClosingOk(y', c) { assert ClosingOk(y, c); }
  }

  /** Clients that are closed from the idle lists have been idle, so no request had them. */
  ghost predicate OnlyIdle(y: System, gone: set<Client>) {
    forall c :: c in gone ==> c in y.place && y.place[c].Idle?
  }

  lemma ShuttingKeepsRequests(y: System, y': System, gone: set<Client>)
    requires Invariant(y) && OnlyIdle(y, gone)
    requires y'.place == Shutting(y.place, gone) && y'.holds == y.holds && y'.hooks == y.hooks
    requires y'.closing == y.closing
    ensures forall r :: HoldOk(y', r)
    ensures forall r :: HookOk(y', r)
    ensures forall c :: ClosingOk(y', c)
    ensures forall c :: c in y'.place && y'.place[c].Taken? ==> PlaceOk(y', c)
  {
    forall r ensures HoldOk(y', r) { assert HoldOk(y, r); }
    forall r ensures HookOk(y', r) { assert HookOk(y, r); }
    forall c ensures ClosingOk(y', c) { assert ClosingOk(y, c); }
    forall c | c in y'.place && y'.place[c].Taken? ensures PlaceOk(y', c) { assert PlaceOk(y, c); }
  }

  lemma ListedAreIdle(y: System, key: string, l: seq<Conn>)
    requires ListOk(y, key) && (forall i :: 0 <= i < |l| ==> l[i] in IdleAt(y.idle, key))
    ensures forall c :: c in Clients(l) ==> At(y, c, Idle(key))
  {
    forall c | c in Clients(l) ensures At(y, c, Idle(key)) {
      var i :| 0 <= i < |l| && l[i].client == c;
      var j :| 0 <= j < |IdleAt(y.idle, key)| && IdleAt(y.idle, key)[j] == l[i];
    }
  }

  /** Closing the end of one list. */
  function Cut(y: System, key: string, n: nat): System
    requires n <= |IdleAt(y.idle, key)|
  {
    var was := IdleAt(y.idle, key);
    y.(idle := y.idle[key := was[..n]], place := Shutting(y.place, Clients(was[n..])))
  }

  lemma CutKeepsLists(y: System, key: string, n: nat, k: string)
    requires ListOk(y, key) && ListOk(y, k) && n <= |IdleAt(y.idle, key)|
    ensures ListOk(Cut(y, key, n), k)
  {
    var was := IdleAt(y.idle, key);
    ListedAreIdle(y, key, was[n..]);
    forall i | 0 <= i < n ensures was[i].client !in Clients(was[n..]) {
      assert forall j :: n <= j < |was| ==> was[n..][j - n] == was[j];
    }
  }

  lemma CutKeepsPlaces(y: System, key: string, n: nat, c: Client)
    requires PlaceOk(y, c) && n <= |IdleAt(y.idle, key)|
    ensures PlaceOk(Cut(y, key, n), c)
  {
    var y' := Cut(y, key, n);
    var was := IdleAt(y.idle, key);
    if At(y', c, Idle(key)) {
      var i :| 0 <= i < |was| && was[i].client == c;
      assert IdleAt(y'.idle, key)[i].client == c;
    } else if c in y'.place && y'.place[c].Idle? {
      assert IdleAt(y'.idle, y'.place[c].key) == IdleAt(y.idle, y'.place[c].key);
    }
  }

  lemma CutKeeps(y: System, key: string, n: nat)
    requires Invariant(y) && n <= |IdleAt(y.idle, key)|
    ensures Invariant(Cut(y, key, n))
  {
    var y' := Cut(y, key, n);
    var was := IdleAt(y.idle, key);
    assert ListOk(y, key);
    ListedAreIdle(y, key, was[n..]);
    ShuttingKeepsRequests(y, y', Clients(was[n..]));
    hide Cut;
    forall k ensures ListOk(y', k) { assert ListOk(y, k); CutKeepsLists(y, key, n, k); }
    forall c ensures PlaceOk(y', c) { assert PlaceOk(y, c); CutKeepsPlaces(y, key, n, c); }
  }

  /** Handing the last client of a list to a request. */
  function HandOut(y: System, r: Request, key: string, host: string, ip: string): System
    requires IdleAt(y.idle, key) != []
  {
    var l := IdleAt(y.idle, key);
    var last := l[|l| - 1];
    y.(idle := y.idle[key := l[..|l| - 1]], place := y.place[last.client := Taken(r)],
       holds := y.holds[r := Hold(last.client, host, ip, false, false)])
  }

  lemma HandOutKeepsLists(y: System, r: Request, key: string, host: string, ip: string, k: string)
    requires ListOk(y, key) && ListOk(y, k) && IdleAt(y.idle, key) != []
    ensures ListOk(HandOut(y, r, key, host, ip), k)
  {
  }

  lemma HandOutKeepsPlaces(y: System, r: Request, key: string, host: string, ip: string, c: Client)
    requires ListOk(y, key) && PlaceOk(y, c) && r !in y.holds && IdleAt(y.idle, key) != []
    ensures PlaceOk(HandOut(y, r, key, host, ip), c)
  {
    var y', l := HandOut(y, r, key, host, ip), IdleAt(y.idle, key);
    if At(y', c, Idle(key)) {
      var i :| 0 <= i < |l| && l[i].client == c;
      assert IdleAt(y'.idle, key)[i].client == c;
    }
  }

  lemma HandOutKeeps(y: System, r: Request, key: string, host: string, ip: string)
    requires Invariant(y) && r !in y.holds && IdleAt(y.idle, key) != []
    ensures Invariant(HandOut(y, r, key, host, ip))
  {
    var y' := HandOut(y, r, key, host, ip);
    assert ListOk(y, key) && HookOk(y, r);
    forall k ensures ListOk(y', k) { assert ListOk(y, k); HandOutKeepsLists(y, r, key, host, ip, k); }
    forall c ensures PlaceOk(y', c) { assert PlaceOk(y, c); HandOutKeepsPlaces(y, r, key, host, ip, c); }
    forall q ensures HoldOk(y', q) { assert HoldOk(y, q); }
    forall q ensures HookOk(y', q) { assert HookOk(y, q); }
    forall c ensures ClosingOk(y', c) { assert ClosingOk(y, c); }
  }

  lemma PopKeeps(y: System, r: Request, mxHost: string, sourceIp: string, ttl: int)
    requires Invariant(y) && r !in y.holds
    ensures Invariant(Pop(y, r, mxHost, sourceIp, ttl))
  {
    hide Invariant, LastLive;
    var key := PoolKey(mxHost, sourceIp);
    var was := IdleAt(y.idle, key);
    var i := LastLive(was, y.time, ttl);
    CutKeeps(y, key, i + 1);
    if i >= 0 {
      assert was[..i + 1][..i] == was[..i];
      var cut := Cut(y, key, i + 1);
      HandOutKeeps(cut, r, key, mxHost, sourceIp);
      assert cut.idle[key := was[..i]] == y.idle[key := was[..i]];
    }
  }

  predicate Ordered(l: seq<Conn>) {
    forall i, j :: 0 <= i < j < |l| ==> l[i].client != l[j].client && l[i].timestamp <= l[j].timestamp
  }

  lemma OrderedAppend(l: seq<Conn>, last: Conn)
    requires Ordered(l) && forall i :: 0 <= i < |l| ==> l[i].client != last.client && l[i].timestamp <= last.timestamp
    ensures Ordered(l + [last])
  {
  }

  lemma {:induction false} ActiveOrdered(l: seq<Conn>, now: int, ttl: int)
    requires Ordered(l)
    ensures Ordered(Active(l, now, ttl))
  {
    if l != [] {
      var n := |l| - 1;
      ActiveOrdered(l[..n], now, ttl);
      var kept := Active(l[..n], now, ttl);
      forall i | 0 <= i < |kept| ensures kept[i].client != l[n].client && kept[i].timestamp <= l[n].timestamp {
        assert kept[i] in l[..n];
      }
      OrderedAppend(kept, l[n]);
    }
  }

  /** After a cleanup the list of a key is its active part. */
  lemma ExpiredList(t: Table, now: int, ttl: int, key: string)
    ensures IdleAt(Expire(t, now, ttl, {}), key) == Active(IdleAt(t, key), now, ttl)
  {
  }

  lemma StaleIsGone(t: Table, now: int, ttl: int, key: string, i: nat)
    requires i < |IdleAt(t, key)| && Expired(IdleAt(t, key)[i], now, ttl)
    ensures IdleAt(t, key)[i].client in StaleIn(t, now, ttl, t.Keys)
  {
    assert IdleAt(t, key)[i].client in Stale(t[key], now, ttl);
  }

  lemma GoneIsStale(t: Table, now: int, ttl: int, c: Client) returns (key: string, i: nat)
    requires c in StaleIn(t, now, ttl, t.Keys)
    ensures i < |IdleAt(t, key)| && IdleAt(t, key)[i].client == c && Expired(IdleAt(t, key)[i], now, ttl)
  {
    key :| key in t && c in Stale(t[key], now, ttl);
    i :| 0 <= i < |t[key]| && Expired(t[key][i], now, ttl) && t[key][i].client == c;
  }

  /** In a good state a client is listed once, so it is stale or active but not both. */
  lemma ListedOnce(y: System, key: string, i: nat, key': string, j: nat)
    requires Invariant(y) && i < |IdleAt(y.idle, key)| && j < |IdleAt(y.idle, key')|
    requires IdleAt(y.idle, key)[i].client == IdleAt(y.idle, key')[j].client
    ensures key == key' && i == j
  {
    assert ListOk(y, key) && ListOk(y, key');
    assert At(y, IdleAt(y.idle, key)[i].client, Idle(key)) && At(y, IdleAt(y.idle, key')[j].client, Idle(key'));
  }

  lemma CleanupKeepsList(y: System, y': System, ttl: int, key: string)
    requires Invariant(y) && y' == Apply(y, Cleanup(0), ttl)
    ensures ListOk(y', key)
  {
    hide Expire, StaleIn, Active;
    var l, kept := IdleAt(y.idle, key), Active(IdleAt(y.idle, key), y.time, ttl);
    assert ListOk(y, key);
    ExpiredList(y.idle, y.time, ttl, key);
    ActiveOrdered(l, y.time, ttl);
    forall i | 0 <= i < |kept|
      ensures kept[i] in l && At(y', kept[i].client, Idle(key))
    {
      assert kept[i] in kept;
      var j :| 0 <= j < |l| && l[j] == kept[i];
      if l[j].client in StaleIn(y.idle, y.time, ttl, y.idle.Keys) {
        var key', j' := GoneIsStale(y.idle, y.time, ttl, l[j].client);
        ListedOnce(y, key, j, key', j');
      }
    }
  }

  lemma CleanupKeepsPlace(y: System, y': System, ttl: int, c: Client)
    requires Invariant(y) && y' == Apply(y, Cleanup(0), ttl)
    ensures c in y'.place && y'.place[c].Idle? ==> PlaceOk(y', c)
  {
    hide Expire, StaleIn, Active;
    assert PlaceOk(y, c);
    if c in y'.place && y'.place[c].Idle? {
      var key := y.place[c].key;
      var l, kept := IdleAt(y.idle, key), Active(IdleAt(y.idle, key), y.time, ttl);
      var i :| 0 <= i < |l| && l[i].client == c;
      ExpiredList(y.idle, y.time, ttl, key);
      if Expired(l[i], y.time, ttl) { StaleIsGone(y.idle, y.time, ttl, key, i); }
      assert l[i] in kept;
      var j :| 0 <= j < |kept| && kept[j] == l[i];
    }
  }

  lemma CleanupKeeps(y: System, ttl: int)
    requires Invariant(y)
    ensures Invariant(Apply(y, Cleanup(0), ttl))
  {
    var y' := Apply(y, Cleanup(0), ttl);
    var gone := StaleIn(y.idle, y.time, ttl, y.idle.Keys);
    forall c | c in gone ensures c in y.place && y.place[c].Idle? {
      var key, i := GoneIsStale(y.idle, y.time, ttl, c);
      assert ListOk(y, key);
    }
    ShuttingKeepsRequests(y, y', gone);
    forall key ensures ListOk(y', key) { CleanupKeepsList(y, y', ttl, key); }
    forall c ensures PlaceOk(y', c) { CleanupKeepsPlace(y, y', ttl, c); }
  }

  lemma CloseAllKeeps(y: System, ttl: int)
    requires Invariant(y)
    ensures Invariant(Apply(y, CloseAll, ttl))
  {
    var y' := Apply(y, CloseAll, ttl);
    var gone := AllClients(y.idle, y.idle.Keys);
    forall c | c in gone ensures c in y.place && y.place[c].Idle? {
      var key :| key in y.idle && c in Clients(y.idle[key]);
      assert ListOk(y, key);
      ListedAreIdle(y, key, y.idle[key]);
    }
    ShuttingKeepsRequests(y, y', gone);
    forall c ensures PlaceOk(y', c) {
      assert PlaceOk(y, c);
      if c in y.place && y.place[c].Idle? {
        var key := y.place[c].key;
        var i :| 0 <= i < |IdleAt(y.idle, key)| && IdleAt(y.idle, key)[i].client == c;
        assert c in Clients(y.idle[key]);
      }
    }
  }

  lemma StepKeeps(y: System, a: Action, ttl: int)
    requires Invariant(y)
    ensures Invariant(Apply(y, a, ttl))
  {
    hide Invariant, Pop, Put, Expire, StaleIn, AllClients, Discard;
    match a
    case Take(r, mxHost, sourceIp, wait) =>
      LaterKeeps(y, wait);
      if r !in y.holds { PopKeeps(Later(y, wait), r, mxHost, sourceIp, ttl); }
    case PutBack(r, wait) =>
      LaterKeeps(y, wait);
      if r in y.holds && y.holds[r].disarmed { PutKeeps(Later(y, wait), r); }
    case Cleanup(wait) =>
      LaterKeeps(y, wait);
      CleanupKeeps(Later(y, wait), ttl);
    case CloseAll => CloseAllKeeps(y, ttl);
    case HookCloses(c) => HookStep(y, c, ttl);
    case Dial(r, c, mxHost, sourceIp) => DialKeeps(y, r, c, mxHost, sourceIp, ttl);
    case NoopFails(r) => if r in y.holds { DiscardKeeps(y, r); }
    case Arm(r) => ArmKeeps(y, r, ttl);
    case ContextEnds(r) => EndKeeps(y, r, ttl);
    case Finish(r, success) => FinishKeeps(y, r, success, ttl);
  }

  lemma {:induction false} RunKeepsInvariant(actions: seq<Action>, ttl: int)
    ensures Invariant(Run(actions, ttl))
  {
    if actions != [] {
      hide Apply;
      RunKeepsInvariant(actions[..|actions| - 1], ttl);
      StepKeeps(Run(actions[..|actions| - 1], ttl), actions[|actions| - 1], ttl);
    }
  }

  // ---------------------------------------------------------------- main results

  /** Each client ever seen is idle in one list, with one request, or closed; and the record says which. */
  lemma OwnershipIsConserved(actions: seq<Action>, ttl: int, c: Client, key: string, r: Request)
    ensures
      var y := Run(actions, ttl);
      && (InList(y, key, c) <==> At(y, c, Idle(key)))
      && (r in y.holds && y.holds[r].client == c ==> At(y, c, Taken(r)) || At(y, c, Shut))
      && (At(y, c, Taken(r)) ==> r in y.holds && y.holds[r].client == c)
  {
    RunKeepsInvariant(actions, ttl);
    var y := Run(actions, ttl);
    assert ListOk(y, key) && PlaceOk(y, c) && HoldOk(y, r);
  }

  /** Idle lists stay within the cap, oldest first, without repetition. */
  lemma IdleListsAreOrdered(actions: seq<Action>, ttl: int, key: string)
    ensures
      var l := IdleAt(Run(actions, ttl).idle, key);
      |l| <= MAX_IDLE && Ordered(l)
  {
    RunKeepsInvariant(actions, ttl);
    assert ListOk(Run(actions, ttl), key);
  }

  /** An idle client has no hook: whoever armed one still holds its own, open client. */
  lemma NoHookOnIdleClient(actions: seq<Action>, ttl: int, r: Request)
    ensures
      var y := Run(actions, ttl);
      r in y.hooks ==> r in y.holds && At(y, y.hooks[r], Taken(r)) && forall key :: !InList(y, key, y.hooks[r])
  {
    RunKeepsInvariant(actions, ttl);
    var y := Run(actions, ttl);
    assert HookOk(y, r);
    if r in y.hooks {
      forall key ensures !InList(y, key, y.hooks[r]) { assert ListOk(y, key); }
    }
  }

  /**
   A hook that has started never closes a client out of the pool or out of another request: a client it has yet to close
   is in no idle list, and the request that holds it, if any, is one whose own hook has started.
   */
  lemma RunningHookHitsOwnClient(actions: seq<Action>, ttl: int, c: Client, r: Request)
    requires c in Run(actions, ttl).closing
    ensures
      var y := Run(actions, ttl);
      && (forall key :: !InList(y, key, c))
      && (r in y.holds && y.holds[r].client == c ==> y.holds[r].armed && !y.holds[r].disarmed && r !in y.hooks)
  {
    RunKeepsInvariant(actions, ttl);
    var y := Run(actions, ttl);
    assert ClosingOk(y, c) && HoldOk(y, r) && HookOk(y, r);
    forall key ensures !InList(y, key, c) { assert ListOk(y, key); }
  }

  /** The source IPs of an action hold no bar: they are addresses, or empty. */
  predicate PlainIp(a: Action) {
    match a
    case Dial(_, _, _, ip) => '|' !in ip
    case Take(_, _, ip, _) => '|' !in ip
    case _ => true
  }

  predicate PlainList(y: System, key: string) {
    forall i :: 0 <= i < |IdleAt(y.idle, key)| ==> '|' !in IdleAt(y.idle, key)[i].sourceIp
  }

  predicate PlainHold(y: System, r: Request) {
    r in y.holds ==> '|' !in y.holds[r].sourceIp
  }

  lemma StepKeepsPlainList(y: System, a: Action, ttl: int, key: string)
    requires PlainIp(a) && PlainList(y, key) && (a.PutBack? ==> PlainHold(y, a.r))
    ensures PlainList(Apply(y, a, ttl), key)
  {
    hide StaleIn, AllClients, Shutting, Expire, Active, Discard, Pop, Put, IdleAt;
    match a
    case Cleanup(wait) =>
      var kept := Active(IdleAt(y.idle, key), y.time + wait, ttl);
      ExpiredList(y.idle, y.time + wait, ttl, key);
      forall i | 0 <= i < |kept| ensures '|' !in kept[i].sourceIp { assert kept[i] in kept; }
    case PutBack(r, wait) => if r in y.holds { PutKeepsPlain(Later(y, wait), r, key); }
    case Take(r, mxHost, sourceIp, wait) => PopKeepsPlain(Later(y, wait), r, mxHost, sourceIp, ttl, key);
    case Finish(r, _) => if r in y.holds { DiscardKeepsLists(y, r); }
    case NoopFails(r) => if r in y.holds { DiscardKeepsLists(y, r); }
    case CloseAll => assert IdleAt(map[], key) == [] by { EmptyTable(key); }
    case _ =>
  }

  lemma EmptyTable(key: string)
    ensures IdleAt(map[], key) == []
  {
  }

  lemma PutKeepsPlain(y: System, r: Request, key: string)
    requires r in y.holds && PlainHold(y, r) && PlainList(y, key)
    ensures PlainList(Put(y, r), key)
  {
    var before, after := IdleAt(y.idle, key), IdleAt(Put(y, r).idle, key);
    forall i | 0 <= i < |after| ensures '|' !in after[i].sourceIp {
      if i < |before| { assert after[i] == before[i]; }
    }
  }

  lemma PopKeepsPlain(y: System, r: Request, mxHost: string, sourceIp: string, ttl: int, key: string)
    requires PlainList(y, key)
    ensures PlainList(Pop(y, r, mxHost, sourceIp, ttl), key)
  {
    hide LastLive, Clients, Shutting, PoolKey;
    var here := PoolKey(mxHost, sourceIp);
    var was := IdleAt(y.idle, here);
    var i := LastLive(was, y.time, ttl);
    var left := if i < 0 then [] else was[..i];
    assert Pop(y, r, mxHost, sourceIp, ttl).idle == y.idle[here := left];
    var after := IdleAt(y.idle[here := left], key);
    assert after == if key == here then left else IdleAt(y.idle, key);
    forall j | 0 <= j < |after| ensures '|' !in after[j].sourceIp {
      assert after[j] == IdleAt(y.idle, key)[j];
    }
  }

  lemma DiscardKeepsLists(y: System, r: Request)
    requires r in y.holds
    ensures Discard(y, r).idle == y.idle
  {
  }

  lemma {:induction false} SourceIpsArePlain(actions: seq<Action>, ttl: int)
    requires forall i :: 0 <= i < |actions| ==> PlainIp(actions[i])
    ensures forall key :: PlainList(Run(actions, ttl), key)
    ensures forall r :: PlainHold(Run(actions, ttl), r)
  {
    if actions != [] {
      var y, a := Run(actions[..|actions| - 1], ttl), actions[|actions| - 1];
      SourceIpsArePlain(actions[..|actions| - 1], ttl);
      forall key ensures PlainList(Apply(y, a, ttl), key) { StepKeepsPlainList(y, a, ttl, key); }
      forall r ensures PlainHold(Apply(y, a, ttl), r) {
        assert PlainHold(y, r);
        StepKeepsPlainHold(y, a, ttl, r);
      }
    }
  }

  lemma StepKeepsPlainHold(y: System, a: Action, ttl: int, r: Request)
    requires PlainIp(a) && PlainHold(y, r)
    ensures PlainHold(Apply(y, a, ttl), r)
  {
    hide StaleIn, LastLive, AllClients, Clients, Expire;
  }

  /** A pop gives an open client that was put under the same host and source IP at most the time to live ago. */
  lemma TakenIsFreshAndOwn(actions: seq<Action>, ttl: int, r: Request, mxHost: string, sourceIp: string, wait: nat)
    requires r !in Run(actions, ttl).holds && '|' !in sourceIp
    requires forall i :: 0 <= i < |actions| ==> PlainIp(actions[i])
    ensures
      var y := Run(actions, ttl);
      var y' := Apply(y, Take(r, mxHost, sourceIp, wait), ttl);
      r in y'.holds ==>
        exists conn ::
          && conn in IdleAt(y.idle, PoolKey(mxHost, sourceIp))
          && conn.client == y'.holds[r].client && conn.mxHost == mxHost && conn.sourceIp == sourceIp
          && y'.time - conn.timestamp <= ttl && At(y, conn.client, Idle(PoolKey(mxHost, sourceIp)))
  {
    RunKeepsInvariant(actions, ttl);
    var y := Run(actions, ttl);
    var key := PoolKey(mxHost, sourceIp);
    var was := IdleAt(y.idle, key);
    var i := LastLive(was, y.time + wait, ttl);
    assert ListOk(y, key);
    SourceIpsArePlain(actions, ttl);
    if i >= 0 {
      assert was[i] in was && PlainList(y, key);
      PoolKeyIsInjective(was[i].mxHost, was[i].sourceIp, mxHost, sourceIp);
    }
  }

  // ---------------------------------------------------------------- connections are reused

  /** A request is given the most recent idle client of its host and source IP, if that has not expired. */
  lemma TakeReuses(y: System, r: Request, mxHost: string, sourceIp: string, wait: nat, ttl: int)
    requires r !in y.holds && IdleAt(y.idle, PoolKey(mxHost, sourceIp)) != []
    ensures
      var l := IdleAt(y.idle, PoolKey(mxHost, sourceIp));
      var last := l[|l| - 1];
      var y' := Apply(y, Take(r, mxHost, sourceIp, wait), ttl);
      y.time + wait - last.timestamp <= ttl ==>
        && r in y'.holds && y'.holds[r] == Hold(last.client, mxHost, sourceIp, false, false)
        && At(y', last.client, Taken(r)) && IdleAt(y'.idle, PoolKey(mxHost, sourceIp)) == l[..|l| - 1]
  {
    hide PoolKey;
  }

  /** After a success the client goes back to the pool, unless ten are idle there already. */
  lemma PutBackPools(y: System, r: Request, wait: nat, ttl: int)
    requires r in y.holds && y.holds[r].disarmed
    ensures
      var h := y.holds[r];
      var key := PoolKey(h.mxHost, h.sourceIp);
      var l := IdleAt(y.idle, key);
      var y' := Apply(y, PutBack(r, wait), ttl);
      && r !in y'.holds
      && (|l| < 10 ==>
            && IdleAt(y'.idle, key) == l + [Conn(h.client, h.mxHost, h.sourceIp, y.time + wait)]
            && At(y', h.client, Idle(key)))
      && (|l| >= 10 ==> y'.idle == y.idle && At(y', h.client, Shut))
  {
    hide PoolKey;
  }

  /** A failure, or a hook that has started, closes the client; a success with the hook stopped keeps it. */
  lemma FinishDecides(y: System, r: Request, success: bool, ttl: int)
    requires r in y.holds && !y.holds[r].disarmed
    ensures
      var y' := Apply(y, Finish(r, success), ttl);
      if success && r in y.hooks then r in y'.holds && y'.holds[r].disarmed && r !in y'.hooks && y'.place == y.place
      else r !in y'.holds && r !in y'.hooks && At(y', y.holds[r].client, Shut)
  {
  }

  /** A hook armed on a request's client starts when the context ends and then closes it; a failed NOOP closes it. */
  lemma HooksDoTheirWork(y: System, r: Request, c: Client, ttl: int)
    ensures r in y.holds && !y.holds[r].armed ==>
              var y' := Apply(y, Arm(r), ttl);
              r in y'.hooks && y'.hooks[r] == y.holds[r].client && r in y'.holds && y'.holds[r].armed
    ensures r in y.hooks ==>
              var y' := Apply(y, ContextEnds(r), ttl);
              r !in y'.hooks && y'.closing == y.closing + {y.hooks[r]}
    ensures c in y.closing ==>
              var y' := Apply(y, HookCloses(c), ttl);
              At(y', c, Shut) && y'.closing == y.closing - {c}
    ensures r in y.holds && r !in y.hooks ==>
              var y' := Apply(y, NoopFails(r), ttl);
              r !in y'.holds && At(y', y.holds[r].client, Shut)
  {
  }

  /** A cleanup closes exactly the idle clients past their time to live, and leaves the others where they are. */
  lemma CleanupCloses(actions: seq<Action>, wait: nat, ttl: int, key: string, i: nat)
    requires i < |IdleAt(Run(actions, ttl).idle, key)|
    ensures
      var y := Run(actions, ttl);
      var conn := IdleAt(y.idle, key)[i];
      var y' := Apply(y, Cleanup(wait), ttl);
      if y.time + wait - conn.timestamp > ttl then At(y', conn.client, Shut) && conn !in IdleAt(y'.idle, key)
      else At(y', conn.client, Idle(key)) && conn in IdleAt(y'.idle, key)
  {
    hide Run, Expire, StaleIn, Active;
    RunKeepsInvariant(actions, ttl);
    var y := Run(actions, ttl);
    var conn, now := IdleAt(y.idle, key)[i], y.time + wait;
    assert ListOk(y, key) && At(y, conn.client, Idle(key));
    ExpiredList(y.idle, now, ttl, key);
    assert conn in IdleAt(y.idle, key);
    if Expired(conn, now, ttl) {
      StaleIsGone(y.idle, now, ttl, key, i);
    } else if conn.client in StaleIn(y.idle, now, ttl, y.idle.Keys) {
      var key', j := GoneIsStale(y.idle, now, ttl, conn.client);
      ListedOnce(y, key, i, key', j);
    }
  }

  /** Closing the pool closes every idle client. */
  lemma CloseAllCloses(actions: seq<Action>, ttl: int, key: string, i: nat)
    requires i < |IdleAt(Run(actions, ttl).idle, key)|
    ensures
      var y := Run(actions, ttl);
      var y' := Apply(y, CloseAll, ttl);
      At(y', IdleAt(y.idle, key)[i].client, Shut) && IdleAt(y'.idle, key) == []
  {
    hide Run;
    RunKeepsInvariant(actions, ttl);
    var y := Run(actions, ttl);
    assert ListOk(y, key);
    assert IdleAt(y.idle, key)[i].client in Clients(y.idle[key]);
  }
}
