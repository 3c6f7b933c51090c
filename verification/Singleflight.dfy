/**
 Request coalescing as a step system: any number of callers of singleflightGroup.do, interleaved wherever the mutex is
 not held.  The system's step count serves as time.
 */
module Singleflight {
  import opened Common

  type Key = string

  /** One execution of the looked-up function: its span in the table of calls, and its value once it has one. */
  datatype Call<V> = Call(key: Key, owner: nat, registered: nat, deleted: Option<nat>, value: Option<V>)

  /** Callers carry the time they entered, the call they hold, and at last the value and time of their return. */
  datatype Pc<V> =
    | Entered(key: Key, since: nat)
    | Waiting(key: Key, since: nat, call: nat)
    | Running(key: Key, since: nat, call: nat)
    | Finished(key: Key, since: nat, call: nat)
    | Returned(key: Key, since: nat, call: nat, value: V, upto: nat)

  datatype System<V> = System(time: nat, callers: map<nat, Pc<V>>, table: map<Key, nat>, calls: seq<Call<V>>)

  /** A caller enters, or takes its next step; value is what the function would return now. */
  datatype Action<V> = Enter(id: nat, key: Key) | Move(id: nat, value: V)

  function At<V>(y: System<V>, id: nat, pc: Pc<V>): System<V> {
    y.(callers := y.callers[id := pc])
  }

  /** The first locked section: join the call in the table or register a new one. */
  function Register<V>(y: System<V>, id: nat, key: Key, since: nat): System<V> {
    if key in y.table then At(y, id, Waiting(key, since, y.table[key]))
    else
      var c := |y.calls|;
      At(y.(table := y.table[key := c], calls := y.calls + [Call(key, id, y.time, None, None)]),
         id, Running(key, since, c))
  }

  function Advance<V>(y: System<V>, id: nat, v: V): System<V>
    requires id in y.callers
  {
    match y.callers[id]
    case Entered(key, since) => Register(y, id, key, since)
    case Running(key, since, c) =>
      if c >= |y.calls| then y
      else At(y.(calls := y.calls[c := y.calls[c].(value := Some(v))]), id, Finished(key, since, c))
    case Finished(key, since, c) =>
      if c >= |y.calls| || y.calls[c].value.None? then y
      else
        At(y.(table := y.table - {key}, calls := y.calls[c := y.calls[c].(deleted := Some(y.time))]),
           id, Returned(key, since, c, y.calls[c].value.value, y.time))
    case Waiting(key, since, c) =>
      if c >= |y.calls| || y.calls[c].value.None? then y
      else At(y, id, Returned(key, since, c, y.calls[c].value.value, y.time))
    case Returned(_, _, _, _, _) => y
  }

  function Tick<V>(y: System<V>): System<V> {
    y.(time := y.time + 1)
  }

  function Apply<V>(y: System<V>, a: Action<V>): System<V> {
    Tick(match a
         case Enter(id, key) => if id in y.callers then y else At(y, id, Entered(key, y.time))
         case Move(id, v) => if id !in y.callers then y else Advance(y, id, v))
  }

  function Run<V>(actions: seq<Action<V>>): System<V> {
    if actions == [] then System(0, map[], map[], [])
    else Apply(Run(actions[..|actions| - 1]), actions[|actions| - 1])
  }

  // ---------------------------------------------------------------- the invariant

  predicate Holds<V>(pc: Pc<V>) {
    pc.Running? || pc.Finished?
  }

  /** Every call in the table is for its key and is held by its owner, which has not deleted it. */
  predicate TableEntry<V>(y: System<V>, key: Key) {
    key in y.table ==>
      && y.table[key] < |y.calls|
      && var c := y.calls[y.table[key]];
         && c.key == key && c.deleted.None? && c.registered <= y.time
         && c.owner in y.callers && Holds(y.callers[c.owner])
         && y.callers[c.owner].call == y.table[key] && y.callers[c.owner].key == key
  }

  /** The span of call c, from registration to deletion, meets the time since the caller entered. */
  predicate Overlaps<V>(y: System<V>, c: nat, key: Key, since: nat) {
    && since <= y.time && c < |y.calls| && y.calls[c].key == key && y.calls[c].registered <= y.time
    && (y.calls[c].deleted.Some? ==> since <= y.calls[c].deleted.value)
  }

  ghost predicate CallerOk<V>(y: System<V>, id: nat)
  {
    id in y.callers ==>
      match y.callers[id]
      case Entered(_, since) => since <= y.time
      case Waiting(key, since, c) => Overlaps(y, c, key, since)
      case Running(key, since, c) =>
        && Overlaps(y, c, key, since) && key in y.table && y.table[key] == c && y.calls[c].owner == id
        && y.calls[c].value.None?
      case Finished(key, since, c) =>
        && Overlaps(y, c, key, since) && key in y.table && y.table[key] == c && y.calls[c].owner == id
        && y.calls[c].value.Some?
      case Returned(key, since, c, v, upto) =>
        Overlaps(y, c, key, since) && y.calls[c].value == Some(v) && y.calls[c].registered <= upto
  }

  ghost predicate Invariant<V>(y: System<V>) {
    && (forall key :: TableEntry(y, key))
    && (forall id :: CallerOk(y, id))
  }

  lemma MoveKeepsTable<V>(y: System<V>, id: nat, v: V, key: Key)
    requires Invariant(y) && id in y.callers
    ensures TableEntry(Apply(y, Move(id, v)), key)
  {
    assert CallerOk(y, id) && TableEntry(y, key) && TableEntry(y, y.callers[id].key);
  }

  lemma MoveKeepsMover<V>(y: System<V>, id: nat, v: V)
    requires Invariant(y) && id in y.callers
    ensures CallerOk(Apply(y, Move(id, v)), id)
  {
    assert CallerOk(y, id) && TableEntry(y, y.callers[id].key);
  }

  lemma MoveKeepsOther<V>(y: System<V>, id: nat, v: V, other: nat)
    requires Invariant(y) && id in y.callers && other in y.callers && other != id
    ensures CallerOk(Apply(y, Move(id, v)), other)
  {
    assert CallerOk(y, id) && CallerOk(y, other);
    var y' := Apply(y, Move(id, v));
    assert y'.callers[other] == y.callers[other];
  }

  lemma Stranger<V>(y: System<V>, a: Action<V>, other: nat)
    requires other !in y.callers && other != a.id
    ensures CallerOk(Apply(y, a), other)
  {
  }

  lemma EnterKeeps<V>(y: System<V>, id: nat, key: Key)
    requires Invariant(y)
    ensures Invariant(Apply(y, Enter(id, key)))
  {
    var y' := Apply(y, Enter(id, key));
    forall k ensures TableEntry(y', k) { assert TableEntry(y, k); }
    forall other ensures CallerOk(y', other) { assert CallerOk(y, other); }
  }

  lemma StepKeeps<V>(y: System<V>, a: Action<V>)
    requires Invariant(y)
    ensures Invariant(Apply(y, a))
  {
    hide TableEntry, CallerOk;
    if a.Enter? {
      EnterKeeps(y, a.id, a.key);
    } else if a.id in y.callers {
      forall key ensures TableEntry(Apply(y, a), key) { MoveKeepsTable(y, a.id, a.value, key); }
      forall other ensures CallerOk(Apply(y, a), other) {
        if other == a.id {
          MoveKeepsMover(y, a.id, a.value);
        } else if other in y.callers {
          MoveKeepsOther(y, a.id, a.value, other);
        } else {
          Stranger(y, a, other);
        }
      }
    } else {
      TickKeeps(y);
    }
  }

  lemma {:induction false} RunKeepsInvariant<V>(actions: seq<Action<V>>)
    ensures Invariant(Run(actions))
  {
    hide Invariant, Apply;
    if actions == [] {
      StartInvariant<V>();
    } else {
      RunKeepsInvariant(actions[..|actions| - 1]);
      StepKeeps(Run(actions[..|actions| - 1]), actions[|actions| - 1]);
    }
  }

  lemma StartInvariant<V>()
    ensures Invariant<V>(Run([]))
  {
  }

  lemma TickKeeps<V>(y: System<V>)
    requires Invariant(y)
    ensures Invariant(Tick(y))
  {
    var y' := Tick(y);
    forall k ensures TableEntry(y', k) { assert TableEntry(y, k); }
    forall other ensures CallerOk(y', other) { assert CallerOk(y, other); }
  }

  // ---------------------------------------------------------------- what a step leaves alone

  /** A step changes the state of the caller that takes it, from which no way leads back, and of no other. */
  lemma CallersStep<V>(y: System<V>, a: Action<V>, id: nat)
    ensures
      var y' := Apply(y, a);
      && (id != a.id ==>
            (id in y'.callers <==> id in y.callers) && (id in y.callers ==> y'.callers[id] == y.callers[id]))
      && (id in y.callers ==> id in y'.callers && y'.callers[id].key == y.callers[id].key)
      && (id in y.callers && y.callers[id].Returned? ==> y'.callers[id] == y.callers[id])
      && (id in y.callers && Holds(y.callers[id]) ==>
            (Holds(y'.callers[id]) || y'.callers[id].Returned?) && y'.callers[id].call == y.callers[id].call)
      && (id in y.callers && y'.callers[id].Running? ==> y.callers[id].Entered? || y.callers[id] == y'.callers[id])
      && (id !in y.callers && id in y'.callers ==> y'.callers[id].Entered?)
  {
  }

  /** Calls keep key and registration; a value comes from the caller that runs the call, a deletion happens now. */
  lemma CallsStep<V>(y: System<V>, a: Action<V>, c: nat)
    requires Invariant(y) && c < |Apply(y, a).calls|
    ensures
      var y' := Apply(y, a);
      && (c >= |y.calls| ==> y'.calls[c].value.None?)
      && (c < |y.calls| ==>
            var before, after := y.calls[c], y'.calls[c];
            && after.key == before.key && after.registered == before.registered
            && (after.value == before.value || RunBy(y, a, c, after.value))
            && (after.deleted == before.deleted || (after.value == before.value && after.deleted == Some(y.time))))
  {
    if a.Move? {
      assert CallerOk(y, a.id);
      if a.id in y.callers { assert TableEntry(y, y.callers[a.id].key); }
    }
  }

  ghost predicate RunBy<V>(y: System<V>, a: Action<V>, c: nat, value: Option<V>) {
    && a.Move? && a.id in y.callers && y.callers[a.id].Running? && y.callers[a.id].call == c && c < |y.calls|
    && value == Some(a.value) && y.calls[c].key == y.callers[a.id].key && y.calls[c].deleted.None?
  }

  lemma Uninvited<V>(y: System<V>, a: Action<V>)
    requires a.Move? && a.id !in y.callers
    ensures Apply(y, a).callers == y.callers
  {
  }

  lemma CallsGrow<V>(y: System<V>, a: Action<V>)
    ensures |y.calls| <= |Apply(y, a).calls|
  {
  }

  // ---------------------------------------------------------------- main results

  /** At most one caller per key is between registering and deleting, and the call in the table is its own. */
  lemma OneExecutionPerKey<V>(actions: seq<Action<V>>, id: nat, other: nat)
    ensures
      var y := Run(actions);
      id in y.callers && Holds(y.callers[id]) ==>
        && y.callers[id].key in y.table && y.table[y.callers[id].key] == y.callers[id].call
        && (other in y.callers && Holds(y.callers[other]) && y.callers[other].key == y.callers[id].key ==> other == id)
  {
    RunKeepsInvariant(actions);
    var y := Run(actions);
    assert CallerOk(y, id) && CallerOk(y, other);
  }

  /** A caller that has returned got the value of an execution for its key whose span meets its own call. */
  lemma ValueFromOverlappingCall<V>(actions: seq<Action<V>>, id: nat)
    ensures
      var y := Run(actions);
      id in y.callers && y.callers[id].Returned? ==>
        var r := y.callers[id];
        && r.call < |y.calls| && y.calls[r.call].key == r.key && y.calls[r.call].value == Some(r.value)
        && y.calls[r.call].registered <= r.upto
        && (y.calls[r.call].deleted.Some? ==> r.since <= y.calls[r.call].deleted.value)
  {
    RunKeepsInvariant(actions);
    assert CallerOk(Run(actions), id);
  }

  /** Deleting a finished call removes that call from the table, and only that one. */
  lemma DeletesOwnCall<V>(actions: seq<Action<V>>, id: nat, v: V)
    requires id in Run(actions).callers && Run(actions).callers[id].Finished?
    ensures
      var y := Run(actions);
      var y' := Apply(y, Move(id, v));
      && y.callers[id].key in y.table && y.table[y.callers[id].key] == y.callers[id].call
      && y'.table == y.table - {y.callers[id].key}
      && y'.callers[id].Returned?
  {
    RunKeepsInvariant(actions);
    assert CallerOk(Run(actions), id);
  }
}
