/**
 Lookup under concurrency: any number of callers that share the cache and coalesce their requests, interleaved wherever
 no lock is held.  Clock readings are arbitrary.  Actions are numbered, and their number serves as time.
 */
module MxService {
  import opened Common
  import opened MxLookup
  import Flight = Singleflight

  /** An execution, with the step at which its resolver answers came. */
  datatype Resolved = Resolved(x: Execution, step: nat)

  /** Where an answer came from: an ended context, a cache entry at the given reading, or an execution it joined. */
  datatype Source = Context | Cached(now: int) | Shared(call: nat)

  /** A caller of Lookup.  Once it has missed the cache, a goroutine of its own works in the coalescing group. */
  datatype Pc =
    | Began(domain: string)
    | SawExpired(domain: string)
    | Joined(domain: string)
    | Answered(domain: string, answer: Answer, source: Source)

  /** The function under way in an owner's goroutine, and whether its result is in the cache yet. */
  datatype Work = Work(result: Resolved, saved: bool)

  /** stored is the record of all results ever put into the cache. */
  datatype System = System(
    callers: map<nat, Pc>, cache: Cache, stored: set<Resolved>, work: map<nat, Work>, flight: Flight.System<Resolved>)

  /**
   A caller's own steps, and Remove for every other deletion of an entry: an invalidation, or one entry dropped by a
   cleanup, whose look at the entry may lie arbitrarily far back.
   */
  datatype Action =
    | Begin(id: nat, domain: string)
    | ContextEnds(id: nat)
    | ReadCache(id: nat, now: int)
    | DropExpired(id: nat)
    | Resolve(id: nat, x: Execution)
    | Save(id: nat)
    | Advance(id: nat)
    | Receive(id: nat)
    | Remove(domain: string)

  /** Stands for the value of a step that has none. */
  const NOTHING := Resolved(Execution("", NotFound, NotFound, 0, 0, 0), 0)

  function At(y: System, id: nat, pc: Pc): System {
    y.(callers := y.callers[id := pc])
  }

  predicate Is(y: System, id: nat, pc: Pc) {
    id in y.callers && y.callers[id] == pc
  }

  /** The goroutine of a caller executes the lookup itself. */
  predicate Executing(y: System, id: nat) {
    id in y.flight.callers && y.flight.callers[id].Running?
  }

  function Tick(y: System): System {
    y.(flight := Flight.Tick(y.flight))
  }

  function Join(y: System, id: nat, domain: string): System {
    At(y, id, Joined(domain)).(flight := Flight.Apply(y.flight, Flight.Enter(id, domain)))
  }

  function Read(y: System, id: nat, domain: string, now: int): System {
    match Load(y.cache, domain, now)
    case Some(a) => Tick(At(y, id, Answered(domain, a, Cached(now))))
    case None => if domain in y.cache then Tick(At(y, id, SawExpired(domain))) else Join(y, id, domain)
  }

  function SaveResult(y: System, id: nat): System
    requires id in y.work
  {
    var r := y.work[id].result;
    y.(cache := y.cache[r.x.domain := EntryOf(r.x)], stored := y.stored + {r}, work := y.work[id := Work(r, true)])
  }

  /** One step; an action that does not apply only lets time pass. */
  function Apply(y: System, a: Action): System {
    match a
    case Begin(id, domain) => Tick(if id in y.callers then y else At(y, id, Began(domain)))
    case ContextEnds(id) =>
      Tick(if id in y.callers && (y.callers[id].Began? || y.callers[id].Joined?)
           then At(y, id, Answered(y.callers[id].domain, Answer([], Some(ContextEnded)), Context)) else y)
    case ReadCache(id, now) =>
      if id in y.callers && y.callers[id].Began? then Read(y, id, y.callers[id].domain, now) else Tick(y)
    case DropExpired(id) =>
      if id in y.callers && y.callers[id].SawExpired?
      then Join(y.(cache := y.cache - {y.callers[id].domain}), id, y.callers[id].domain) else Tick(y)
    case Resolve(id, x) =>
      Tick(if Executing(y, id) && id !in y.work && x.domain == y.flight.callers[id].key
           then y.(work := y.work[id := Work(Resolved(x, y.flight.time), false)]) else y)
    case Save(id) => Tick(if id in y.work && !y.work[id].saved then SaveResult(y, id) else y)
    case Advance(id) =>
      if Executing(y, id) && !(id in y.work && y.work[id].saved) then Tick(y)
      else
        var v := if id in y.work then y.work[id].result else NOTHING;
        y.(flight := Flight.Apply(y.flight, Flight.Move(id, v)))
    case Receive(id) =>
      Tick(if id in y.callers && y.callers[id].Joined? && id in y.flight.callers && y.flight.callers[id].Returned?
           then
             var r := y.flight.callers[id];
             At(y, id, Answered(y.callers[id].domain, Fresh(r.value.x), Shared(r.call)))
           else y)
    case Remove(domain) => Tick(y.(cache := y.cache - {domain}))
  }

  function Run(actions: seq<Action>): System {
    if actions == [] then System(map[], map[], {}, map[], Flight.Run([]))
    else Apply(Run(actions[..|actions| - 1]), actions[|actions| - 1])
  }

  // ---------------------------------------------------------------- the invariant

  ghost predicate StoredFor(y: System, domain: string, r: Resolved) {
    r in y.stored && r.x.domain == domain
  }

  ghost predicate EntryOk(y: System, domain: string) {
    domain in y.cache ==> exists r :: StoredFor(y, domain, r) && y.cache[domain] == EntryOf(r.x)
  }

  /** A result under way is for the key of its owner, and came after the call was registered. */
  ghost predicate WorkOk(y: System, id: nat) {
    id in y.work ==>
      && id in y.flight.callers && !y.flight.callers[id].Entered? && !y.flight.callers[id].Waiting?
      && (y.work[id].saved ==> y.work[id].result in y.stored)
      && (y.flight.callers[id].Running? ==>
            var pc, r := y.flight.callers[id], y.work[id].result;
            && r.x.domain == pc.key && r.step < y.flight.time
            && pc.call < |y.flight.calls| && y.flight.calls[pc.call].registered <= r.step)
  }

  /** The value of a call was stored, for its key, within its span. */
  ghost predicate CallOk(y: System, c: nat) {
    c < |y.flight.calls| && y.flight.calls[c].value.Some? ==>
      var call := y.flight.calls[c];
      var r := call.value.value;
      && StoredFor(y, call.key, r) && call.registered <= r.step < y.flight.time
      && (call.deleted.Some? ==> r.step <= call.deleted.value)
  }

  /** An answer from the cache is that of a stored result, not older than its lifetime. */
  ghost predicate ServedFrom(y: System, domain: string, a: Answer, now: int, r: Resolved) {
    StoredFor(y, domain, r) && Classify(a) == Classify(Fresh(r.x)) && now - r.x.at <= Lifetime(r.x)
  }

  ghost predicate CallerOk(y: System, id: nat) {
    if id !in y.callers then id !in y.flight.callers
    else
      match y.callers[id]
      case Began(_) => id !in y.flight.callers
      case SawExpired(_) => id !in y.flight.callers
      case Joined(domain) => id in y.flight.callers && y.flight.callers[id].key == domain
      case Answered(domain, a, source) =>
        match source
        case Context => a.err == Some(ContextEnded)
        case Cached(now) => exists r :: ServedFrom(y, domain, a, now, r)
        case Shared(c) =>
          && id in y.flight.callers && y.flight.callers[id].Returned?
          && var pc := y.flight.callers[id];
             pc.key == domain && pc.call == c && a == Fresh(pc.value.x)
  }

  ghost predicate Invariant(y: System) {
    && Flight.Invariant(y.flight)
    && (forall d :: EntryOk(y, d))
    && (forall id :: WorkOk(y, id))
    && (forall c :: CallOk(y, c))
    && (forall id :: CallerOk(y, id))
  }

  lemma EntryKeeps(y: System, a: Action, d: string)
    requires EntryOk(y, d)
    ensures EntryOk(Apply(y, a), d)
  {
    hide Flight.Apply, Flight.Tick, Load, EntryOf, Fresh;
    var y' := Apply(y, a);
    if a.Save? && a.id in y.work && !y.work[a.id].saved && y.work[a.id].result.x.domain == d {
      assert StoredFor(y', d, y.work[a.id].result);
    } else if d in y'.cache {
      var r :| StoredFor(y, d, r) && y.cache[d] == EntryOf(r.x);
      assert StoredFor(y', d, r);
    }
  }

  /** The step of the coalescing group that an action takes, if it takes one. */
  function FlightAction(y: System, a: Action): Option<Flight.Action<Resolved>> {
    match a
    case ReadCache(id, now) =>
      if id in y.callers && y.callers[id].Began? && y.callers[id].domain !in y.cache
      then Some(Flight.Enter(id, y.callers[id].domain)) else None
    case DropExpired(id) =>
      if id in y.callers && y.callers[id].SawExpired? then Some(Flight.Enter(id, y.callers[id].domain)) else None
    case Advance(id) =>
      if Executing(y, id) && !(id in y.work && y.work[id].saved) then None
      else Some(Flight.Move(id, if id in y.work then y.work[id].result else NOTHING))
    case _ => None
  }

  lemma FlightSteps(y: System, a: Action)
    ensures
      var step := FlightAction(y, a);
      && Apply(y, a).flight == (if step.Some? then Flight.Apply(y.flight, step.value) else Flight.Tick(y.flight))
      && (step.Some? ==> step.value.id == a.id)
  {
    hide Flight.Apply, Flight.Tick, EntryOf, Fresh;
  }

  lemma FlightKeeps(y: System, a: Action)
    requires Flight.Invariant(y.flight)
    ensures Flight.Invariant(Apply(y, a).flight)
  {
    hide Flight.Invariant, Flight.Apply, Flight.Tick, Apply, FlightAction;
    FlightSteps(y, a);
    var step := FlightAction(y, a);
    if step.Some? { Flight.StepKeeps(y.flight, step.value); } else { Flight.TickKeeps(y.flight); }
  }

  /** What an action does to the results under way. */
  lemma WorkSteps(y: System, a: Action, id: nat)
    ensures
      var y' := Apply(y, a);
      && y.stored <= y'.stored
      && (id in y'.work ==>
            || (id in y.work && y'.work[id] == y.work[id])
            || (id in y.work && y'.work[id] == Work(y.work[id].result, true) && y.work[id].result in y'.stored)
            || (a.Resolve? && a.id == id && id !in y.work && Executing(y, id) && a.x.domain == y.flight.callers[id].key
                && y'.work[id] == Work(Resolved(a.x, y.flight.time), false)))
  {
    hide Flight.Apply, Flight.Tick, Load, EntryOf, Fresh;
  }

  lemma TimePasses(y: System, a: Action)
    ensures Apply(y, a).flight.time == y.flight.time + 1
  {
    hide Apply, FlightAction;
    FlightSteps(y, a);
  }

  lemma RunningCall(y: System, id: nat)
    requires Flight.Invariant(y.flight) && Executing(y, id)
    ensures
      var c := y.flight.callers[id].call;
      c < |y.flight.calls| && y.flight.calls[c].registered <= y.flight.time
  {
    assert Flight.CallerOk(y.flight, id);
  }

  lemma WorkKeeps(y: System, a: Action, id: nat)
    requires Flight.Invariant(y.flight) && WorkOk(y, id)
    ensures WorkOk(Apply(y, a), id)
  {
    hide Flight.Apply, Flight.Invariant, Apply, FlightAction;
    WorkSteps(y, a, id);
    TimePasses(y, a);
    FlightSteps(y, a);
    var step := FlightAction(y, a);
    if step.Some? {
      Flight.CallersStep(y.flight, step.value, id);
      Flight.CallsGrow(y.flight, step.value);
    }
    if Executing(y, id) {
      RunningCall(y, id);
      if step.Some? { Flight.CallsStep(y.flight, step.value, y.flight.callers[id].call); }
    }
  }

  lemma CallKeeps(y: System, a: Action, c: nat)
    requires Flight.Invariant(y.flight) && CallOk(y, c) && (a.Advance? ==> WorkOk(y, a.id))
    ensures CallOk(Apply(y, a), c)
  {
    hide Flight.Apply, Flight.Invariant, Apply;
    TimePasses(y, a);
    FlightSteps(y, a);
    WorkSteps(y, a, 0);
    var step := FlightAction(y, a);
    if step.Some? && c < |Apply(y, a).flight.calls| {
      Flight.CallsStep(y.flight, step.value, c);
    }
  }

  lemma ServedStays(y: System, y': System, domain: string, a: Answer, now: int)
    requires y.stored <= y'.stored && exists r :: ServedFrom(y, domain, a, now, r)
    ensures exists r :: ServedFrom(y', domain, a, now, r)
  {
    var r :| ServedFrom(y, domain, a, now, r);
    assert ServedFrom(y', domain, a, now, r);
  }

  /** A step that leaves a caller alone, and at most moves its goroutine on. */
  lemma StandingCaller(y: System, y': System, id: nat)
    requires CallerOk(y, id) && y.stored <= y'.stored
    requires id in y.callers <==> id in y'.callers
    requires id in y.callers ==> y'.callers[id] == y.callers[id]
    requires id in y.flight.callers <==> id in y'.flight.callers
    requires id in y.flight.callers ==>
      && y'.flight.callers[id].key == y.flight.callers[id].key
      && (y.flight.callers[id].Returned? ==> y'.flight.callers[id] == y.flight.callers[id])
    ensures CallerOk(y', id)
  {
    hide Fresh, Classify, Lifetime;
    if id in y.callers && y.callers[id].Answered? && y.callers[id].source.Cached? {
      var pc := y.callers[id];
      ServedStays(y, y', pc.domain, pc.answer, pc.source.now);
    }
  }

  lemma OtherCaller(y: System, a: Action, id: nat)
    requires Flight.Invariant(y.flight) && CallerOk(y, id) && (a.Remove? || a.Advance? || a.id != id)
    ensures CallerOk(Apply(y, a), id)
  {
    hide Flight.Apply, Load, EntryOf, Fresh;
    FlightSteps(y, a);
    WorkSteps(y, a, id);
    var step := FlightAction(y, a);
    if step.Some? { Flight.CallersStep(y.flight, step.value, id); }
    StandingCaller(y, Apply(y, a), id) by {
      if a.Advance? && id == a.id && id !in y.flight.callers {
        Flight.Uninvited(y.flight, step.value);
      }
    }
  }

  lemma CacheAnswer(y: System, id: nat, now: int)
    requires id in y.callers && y.callers[id].Began? && CallerOk(y, id) && EntryOk(y, y.callers[id].domain)
    ensures CallerOk(Apply(y, ReadCache(id, now)), id)
  {
    var domain := y.callers[id].domain;
    var y' := Apply(y, ReadCache(id, now));
    hide EntryOf, Fresh;
    if Load(y.cache, domain, now).Some? {
      var r :| StoredFor(y, domain, r) && y.cache[domain] == EntryOf(r.x);
      ServedEntry(y.cache, domain, now, r.x);
      assert ServedFrom(y', domain, y'.callers[id].answer, now, r);
    }
  }

  lemma OwnStep(y: System, a: Action)
    requires !a.Remove? && !a.Advance? && CallerOk(y, a.id)
    requires a.id in y.callers ==> EntryOk(y, y.callers[a.id].domain)
    ensures CallerOk(Apply(y, a), a.id)
  {
    hide EntryOf, Fresh, Load, Lifetime;
    if a.ReadCache? && a.id in y.callers && y.callers[a.id].Began? {
      CacheAnswer(y, a.id, a.now);
    } else if Apply(y, a).callers == y.callers {
      WorkSteps(y, a, a.id);
      StandingCaller(y, Apply(y, a), a.id);
    }
  }

  lemma CallerKeeps(y: System, a: Action, id: nat)
    requires Invariant(y)
    ensures CallerOk(Apply(y, a), id)
  {
    hide Apply, CallerOk, EntryOk;
    if a.Remove? || a.Advance? || a.id != id { OtherCaller(y, a, id); } else { OwnStep(y, a); }
  }

  lemma StepKeeps(y: System, a: Action)
    requires Invariant(y)
    ensures Invariant(Apply(y, a))
  {
    hide Apply, EntryOk, WorkOk, CallOk, CallerOk, Flight.Invariant;
    var y' := Apply(y, a);
    FlightKeeps(y, a);
    forall d ensures EntryOk(y', d) { EntryKeeps(y, a, d); }
    forall id ensures WorkOk(y', id) { WorkKeeps(y, a, id); }
    forall c ensures CallOk(y', c) { CallKeeps(y, a, c); }
    forall id ensures CallerOk(y', id) { CallerKeeps(y, a, id); }
  }

  lemma {:induction false} RunKeepsInvariant(actions: seq<Action>)
    ensures Invariant(Run(actions))
  {
    if actions == [] {
      Flight.StartInvariant<Resolved>();
    } else {
      hide Apply, Invariant;
      RunKeepsInvariant(actions[..|actions| - 1]);
      StepKeeps(Run(actions[..|actions| - 1]), actions[|actions| - 1]);
    }
  }

  // ---------------------------------------------------------------- every result is one of the run

  predicate InRun(actions: seq<Action>, r: Resolved) {
    r.step < |actions| && actions[r.step].Resolve? && actions[r.step].x == r.x
  }

  /** Results under way and results stored were resolved by an action of the run; time counts its actions. */
  lemma {:induction false} ResultsAreOfTheRun(actions: seq<Action>)
    ensures Run(actions).flight.time == |actions|
    ensures forall id :: id in Run(actions).work ==> InRun(actions, Run(actions).work[id].result)
    ensures forall r :: r in Run(actions).stored ==> InRun(actions, r)
  {
    if actions != [] {
      var n := |actions| - 1;
      var y, a := Run(actions[..n]), actions[n];
      ResultsAreOfTheRun(actions[..n]);
      assert Run(actions) == Apply(y, a);
      hide Apply, Run;
      TimePasses(y, a);
      StoredSteps(y, a);
      forall r | InRun(actions[..n], r) ensures InRun(actions, r) {}
      forall id | id in Apply(y, a).work ensures InRun(actions, Apply(y, a).work[id].result) { WorkSteps(y, a, id); }
    }
  }

  lemma StoredSteps(y: System, a: Action)
    ensures forall r :: r in Apply(y, a).stored ==> r in y.stored || exists id :: id in y.work && y.work[id].result == r
  {
    hide Flight.Apply, Load, EntryOf, Fresh;
  }

  // ---------------------------------------------------------------- main results

  predicate HasAnswer(y: System, id: nat) {
    id in y.callers && y.callers[id].Answered? && y.callers[id].source != Context
  }

  /**
   The answer is not out of date: from the cache, the result was not older than its lifetime when it was read; from a
   shared execution, the result came within the span of that call in the table, and the caller joined before its end.
   */
  ghost predicate InTime(y: System, id: nat, r: Resolved)
    requires HasAnswer(y, id)
  {
    match y.callers[id].source
    case Cached(now) => now - r.x.at <= Lifetime(r.x)
    case Shared(c) =>
      && c < |y.flight.calls| && y.flight.calls[c].value == Some(r) && y.flight.calls[c].registered <= r.step
      && id in y.flight.callers && y.flight.callers[id].Returned?
      && (y.flight.calls[c].deleted.Some? ==>
            && r.step <= y.flight.calls[c].deleted.value
            && y.flight.callers[id].since <= y.flight.calls[c].deleted.value)
  }

  /** r is a result of this run, for the caller's domain, that classifies as the caller's answer does. */
  ghost predicate Backs(actions: seq<Action>, id: nat, r: Resolved)
    requires HasAnswer(Run(actions), id)
  {
    var pc := Run(actions).callers[id];
    && InRun(actions, r) && r.x.domain == pc.domain
    && Classify(pc.answer) == Classify(Fresh(r.x)) && InTime(Run(actions), id, r)
  }

  /** Under every interleaving, an answer other than an ended context goes back to an execution of the same run. */
  lemma AnswersAreBacked(actions: seq<Action>, id: nat) returns (r: Resolved)
    requires HasAnswer(Run(actions), id)
    ensures Backs(actions, id, r)
  {
    hide Run, Classify, Fresh;
    RunKeepsInvariant(actions);
    ResultsAreOfTheRun(actions);
    var y := Run(actions);
    var pc := y.callers[id];
    assert CallerOk(y, id);
    match pc.source
    case Cached(now) =>
      r :| ServedFrom(y, pc.domain, pc.answer, now, r);
    case Shared(c) =>
      assert CallOk(y, c) && Flight.CallerOk(y.flight, id);
      r := y.flight.callers[id].value;
  }

  lemma ContextAnswers(actions: seq<Action>, id: nat)
    requires id in Run(actions).callers && Run(actions).callers[id].Answered? && !HasAnswer(Run(actions), id)
    ensures Run(actions).callers[id].answer.err == Some(ContextEnded)
  {
    hide Run;
    RunKeepsInvariant(actions);
    assert CallerOk(Run(actions), id);
  }

  /** The step at which a call left the table, or the present one. */
  function EndOf(y: System, c: nat): nat
    requires c < |y.flight.calls|
  {
    if y.flight.calls[c].deleted.Some? then y.flight.calls[c].deleted.value else y.flight.time
  }

  ghost predicate NeverGoesBack(clock: nat -> int) {
    forall i: nat, j: nat :: i <= j ==> clock(i) <= clock(j)
  }

  /** A clock that does not go back and that the readings of the run come from. */
  ghost predicate ReadFrom(actions: seq<Action>, clock: nat -> int) {
    && NeverGoesBack(clock)
    && (forall i :: 0 <= i < |actions| && actions[i].ReadCache? ==> actions[i].now == clock(i))
    && (forall i :: 0 <= i < |actions| && actions[i].Resolve? ==> actions[i].x.at == clock(i))
  }

  /** The caller was answered with the result of x by a call it joined. */
  ghost predicate JoinedTo(actions: seq<Action>, id: nat, x: Execution) {
    var y := Run(actions);
    && HasAnswer(y, id) && y.callers[id].source.Shared? && id in y.flight.callers
    && y.callers[id].source.call < |y.flight.calls|
    && y.flight.calls[y.callers[id].source.call].value.Some?
    && y.flight.calls[y.callers[id].source.call].value.value.x == x
  }

  /** From the reading of x until its owner took the call off the table. */
  ghost function OwnerDelay(actions: seq<Action>, id: nat, x: Execution, clock: nat -> int): int
    requires JoinedTo(actions, id, x)
  {
    clock(EndOf(Run(actions), Run(actions).callers[id].source.call)) - x.at
  }

  /** From the reading of x until the caller joined. */
  ghost function AgeWhenJoined(actions: seq<Action>, id: nat, x: Execution, clock: nat -> int): int
    requires JoinedTo(actions, id, x)
  {
    clock(Run(actions).flight.callers[id].since) - x.at
  }

  /** Every answer that comes from a call rather than the cache is that of an execution the caller joined. */
  lemma SharedIsJoined(actions: seq<Action>, id: nat) returns (r: Resolved)
    requires HasAnswer(Run(actions), id) && Run(actions).callers[id].source.Shared?
    ensures Backs(actions, id, r) && JoinedTo(actions, id, r.x)
  {
    hide Run, Classify, Fresh;
    r := AnswersAreBacked(actions, id);
  }

  /** A result is not older when a caller joins than when its owner takes the call off the table. */
  lemma JoinedWhileAlive(actions: seq<Action>, id: nat, x: Execution, clock: nat -> int)
    requires NeverGoesBack(clock) && JoinedTo(actions, id, x)
    ensures AgeWhenJoined(actions, id, x, clock) <= OwnerDelay(actions, id, x, clock)
  {
    hide Run;
    RunKeepsInvariant(actions);
    var y := Run(actions);
    assert CallerOk(y, id) && Flight.CallerOk(y.flight, id);
  }

  // ---------------------------------------------------------------- an owner that is late

  lemma Extended(actions: seq<Action>, a: Action)
    ensures Run(actions + [a]) == Apply(Run(actions), a)
  {
    assert (actions + [a])[..|actions|] == actions;
  }

  lemma ThreeSteps(before: seq<Action>, a: Action, b: Action, c: Action)
    ensures Run(before + [a, b, c]) == Apply(Apply(Apply(Run(before), a), b), c)
  {
    hide Run, Apply;
    Extended(before, a);
    Extended(before + [a], b);
    Extended(before + [a] + [b], c);
    assert before + [a, b, c] == before + [a] + [b] + [c];
  }

  /** Caller 0 finds nothing cached and registers a call. */
  function Start(x: Execution): seq<Action> {
    [Begin(0, x.domain), ReadCache(0, x.at), Advance(0)]
  }

  /** It executes x, stores the result, and is held up before it takes the call off the table. */
  function LateOwner(x: Execution): seq<Action> {
    Start(x) + [Resolve(0, x), Save(0), Advance(0)]
  }

  /** Caller 1 comes at the reading now, finds the entry expired and joins what is in the table. */
  function LateCaller(x: Execution, now: int): seq<Action> {
    LateOwner(x) + [Begin(1, x.domain), ReadCache(1, now), DropExpired(1)]
  }

  function LateRun(x: Execution, now: int): seq<Action> {
    LateCaller(x, now) + [Advance(1), Advance(1), Receive(1)]
  }

  lemma Started(x: Execution)
    ensures Run(Start(x)) ==
            System(map[0 := Joined(x.domain)], map[], {}, map[],
                   Flight.System(3, map[0 := Flight.Running(x.domain, 1, 0)], map[x.domain := 0],
                                 [Flight.Call(x.domain, 0, 2, None, None)]))
  {
    ThreeSteps([], Begin(0, x.domain), ReadCache(0, x.at), Advance(0));
    assert [] + Start(x) == Start(x);
  }

  lemma HeldUp(x: Execution)
    ensures
      var r := Resolved(x, 3);
      Run(LateOwner(x)) ==
        System(map[0 := Joined(x.domain)], map[x.domain := EntryOf(x)], {r}, map[0 := Work(r, true)],
               Flight.System(6, map[0 := Flight.Finished(x.domain, 1, 0)], map[x.domain := 0],
                             [Flight.Call(x.domain, 0, 2, None, Some(r))]))
  {
    hide EntryOf, Run, Flight.Register;
    Started(x);
    ThreeSteps(Start(x), Resolve(0, x), Save(0), Advance(0));
  }

  lemma JoinedLate(x: Execution, now: int)
    requires now > EntryOf(x).expiresAt
    ensures
      var y := Run(LateCaller(x, now));
      && y.callers == map[0 := Joined(x.domain), 1 := Joined(x.domain)] && y.cache == map[]
      && y.flight.callers == map[0 := Flight.Finished(x.domain, 1, 0), 1 := Flight.Entered(x.domain, 8)]
      && y.flight.table == map[x.domain := 0]
      && y.flight.calls == [Flight.Call(x.domain, 0, 2, None, Some(Resolved(x, 3)))]
  {
    hide EntryOf, Run, Flight.Advance;
    HeldUp(x);
    ThreeSteps(LateOwner(x), Begin(1, x.domain), ReadCache(1, now), DropExpired(1));
  }

  /** However old the result, a caller that finds it expired in the cache is still given it by the late owner. */
  lemma LateOwnerServesOldResult(x: Execution, now: int)
    requires now > EntryOf(x).expiresAt
    ensures
      var y := Run(LateRun(x, now));
      && 1 in y.callers && y.callers[1] == Answered(x.domain, Fresh(x), Shared(0))
      && 1 in y.flight.callers && y.flight.callers[1].since == 8
      && y.flight.calls == [Flight.Call(x.domain, 0, 2, None, Some(Resolved(x, 3)))]
  {
    hide EntryOf, Fresh, Run, Load;
    JoinedLate(x, now);
    ThreeSteps(LateCaller(x, now), Advance(1), Advance(1), Receive(1));
  }

  /** Time stands still until the owner is held up, and then jumps by the delay. */
  function JumpingClock(x: Execution, delay: nat): nat -> int {
    (i: nat) => if i < 6 then x.at else x.at + delay
  }

  /** An owner that is late by more than the lifetime: the caller joins a result that is as old as the owner is late. */
  lemma LateByDelay(x: Execution, delay: nat)
    requires delay > Lifetime(x)
    ensures
      var run, clock := LateRun(x, x.at + delay), JumpingClock(x, delay);
      && ReadFrom(run, clock) && JoinedTo(run, 1, x)
      && OwnerDelay(run, 1, x, clock) == delay == AgeWhenJoined(run, 1, x, clock)
  {
    hide Run, Fresh;
    var run := LateRun(x, x.at + delay);
    LateOwnerServesOldResult(x, x.at + delay);
    ResultsAreOfTheRun(run);
    assert |run| == 12;
  }

  /**
   For every execution and every bound on the owner's delay: in all runs that keep the bound, callers join the result
   within its lifetime, if and only if the bound is at most that lifetime.
   */
  lemma JoinedInTimeIff(x: Execution, delay: nat)
    ensures delay <= Lifetime(x) <==>
            forall actions: seq<Action>, id: nat, clock: nat -> int ::
              ReadFrom(actions, clock) && JoinedTo(actions, id, x) && OwnerDelay(actions, id, x, clock) <= delay ==>
                AgeWhenJoined(actions, id, x, clock) <= Lifetime(x)
  {
    hide Run, Lifetime, JoinedTo, OwnerDelay, AgeWhenJoined;
    if delay <= Lifetime(x) {
      forall actions: seq<Action>, id: nat, clock: nat -> int
        | ReadFrom(actions, clock) && JoinedTo(actions, id, x) && OwnerDelay(actions, id, x, clock) <= delay
        ensures AgeWhenJoined(actions, id, x, clock) <= Lifetime(x)
      {
        JoinedWhileAlive(actions, id, x, clock);
      }
    } else {
      LateByDelay(x, delay);
    }
  }

  // ---------------------------------------------------------------- an owner that is not

  /** The owner takes its call off the table and returns; caller 1 comes after that. */
  function PromptOwner(x: Execution): seq<Action> {
    LateOwner(x) + [Advance(0), Receive(0), Begin(1, x.domain)]
  }

  /** A lookup on its own: executed, stored, answered with its result, and nothing left in the table of calls. */
  lemma OwnerIsAnswered(x: Execution)
    ensures
      var y := Run(PromptOwner(x));
      && y.callers == map[0 := Answered(x.domain, Fresh(x), Shared(0)), 1 := Began(x.domain)]
      && y.cache == map[x.domain := EntryOf(x)] && y.flight.table == map[]
  {
    hide EntryOf, Fresh, Run, Flight.Register;
    HeldUp(x);
    ThreeSteps(LateOwner(x), Advance(0), Receive(0), Begin(1, x.domain));
  }

  /** The next lookup is answered from the cache while the result lives, and finds it expired after that. */
  lemma ThenFromCache(x: Execution, now: int)
    ensures
      var y := Run(PromptOwner(x) + [ReadCache(1, now)]);
      && 1 in y.callers
      && (if now - x.at <= Lifetime(x) then
            && y.callers[1].Answered? && y.callers[1].source == Cached(now)
            && Classify(y.callers[1].answer) == Classify(Fresh(x))
          else y.callers[1] == SawExpired(x.domain))
  {
    hide EntryOf, Fresh, Run, Lifetime;
    OwnerIsAnswered(x);
    Extended(PromptOwner(x), ReadCache(1, now));
    LifetimeMeans(x);
    if now - x.at <= Lifetime(x) { ServedEntry(Run(PromptOwner(x)).cache, x.domain, now, x); }
  }
}
