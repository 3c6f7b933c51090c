/**
 The tracker under concurrency: any number of callers of RecordDeliveryAttempt, interleaved at every point where the
 lock is not held, with arbitrary clock readings and cleanups in between.
 */
module ReputationConcurrent {
  import opened Reputation

  /** Where a caller stands.  A weak caller reads the clock before it takes the lock in recordStrike. */
  datatype Pc =
    | Health(ip: string)
    | Clock(ip: string)
    | StrikeLock(ip: string, now: int)
    | MarkDegraded(ip: string, weak: bool)
    | ClearRead(ip: string, degrade: bool)
    | ClearWrite(ip: string, degrade: bool)
    | RecoverRead(ip: string)
    | RecoverWrite(ip: string)
    | Returned

  /**
   Callers, shared maps, and a record of what happened: how often each address got a strike, which callers saw a
   crossing and for which address, and the weak degrade events, counted by address and by caller.
   */
  datatype System = System(
    callers: map<nat, Pc>, s: State,
    recorded: multiset<string>, crossers: map<nat, string>,
    degrades: multiset<string>, degraders: multiset<nat>)

  datatype Action =
    | Call(id: nat, ip: string, signal: Signal)
    | Move(id: nat, now: int)
    | Cleanup(c: SweepClock)

  function After(y: System, id: nat, pc: Pc): System {
    y.(callers := y.callers[id := pc])
  }

  function Entry(cfg: Config, ip: string, signal: Signal): Pc {
    if !cfg.enabled || ip == "" then Returned
    else
      match signal
      case Success => ClearRead(ip, false)
      case Neutral => Returned
      case Strong => ClearRead(ip, true)
      case Weak => Health(ip)
  }

  function Cleared(ip: string, degrade: bool): Pc {
    if degrade then MarkDegraded(ip, false) else RecoverRead(ip)
  }

  /** The locked section of recordStrike, with its record. */
  function StrikeSection(cfg: Config, y: System, id: nat, ip: string, now: int): System {
    var (crossed, s) := Strike(cfg, y.s, ip, now);
    var y' := y.(s := s, recorded := y.recorded + multiset{ip});
    if crossed then
      After(y'.(crossers := y.crossers[id := ip]), id, MarkDegraded(ip, true))
    else After(y', id, Returned)
  }

  /** One step.  An action that does not apply leaves the system as it is. */
  function Apply(cfg: Config, y: System, a: Action): System {
    match a
    case Call(id, ip, signal) => if id in y.callers then y else After(y, id, Entry(cfg, ip, signal))
    case Cleanup(c) => y.(s := Sweep(cfg, y.s, c))
    case Move(id, now) =>
      if id !in y.callers then y
      else
        match y.callers[id]
        case Health(ip) => After(y, id, if Healthy(cfg, y.s, ip, now) then Clock(ip) else Returned)
        case Clock(ip) => After(y, id, StrikeLock(ip, now))
        case StrikeLock(ip, reading) => StrikeSection(cfg, y, id, ip, reading)
        case MarkDegraded(ip, weak) =>
          var y' := After(y.(s := Degrade(cfg, y.s, ip, now)), id, Returned);
          if weak then y'.(degrades := y.degrades + multiset{ip}, degraders := y.degraders + multiset{id}) else y'
        case ClearRead(ip, degrade) =>
          After(y, id, if ip in y.s.strikes then ClearWrite(ip, degrade) else Cleared(ip, degrade))
        case ClearWrite(ip, degrade) => After(y.(s := ClearStrikes(y.s, ip)), id, Cleared(ip, degrade))
        case RecoverRead(ip) => After(y, id, if ip in y.s.degraded then RecoverWrite(ip) else Returned)
        case RecoverWrite(ip) => After(y.(s := y.s.(degraded := y.s.degraded - {ip})), id, Returned)
        case Returned => y
  }

  function Run(cfg: Config, actions: seq<Action>): System {
    if actions == [] then
      System(map[], State(map[], map[]), multiset{}, map[], multiset{}, multiset{})
    else Apply(cfg, Run(cfg, actions[..|actions| - 1]), actions[|actions| - 1])
  }

  // ---------------------------------------------------------------- the invariant

  /** The callers that saw a crossing of ip. */
  function CrossersOf(y: System, ip: string): set<nat> {
    set id | id in y.crossers && y.crossers[id] == ip
  }

  /** Strikes are spent: a crossing uses up at least threshold of them, and the stored ones are still unspent. */
  predicate StrikesSpent(cfg: Config, y: System, ip: string) {
    && cfg.threshold * |CrossersOf(y, ip)| + |StrikesOf(y.s, ip)| <= y.recorded[ip]
    && |StrikesOf(y.s, ip)| < Max1(cfg.threshold)
  }

  function Max1(x: int): int {
    if x > 1 then x else 1
  }

  /** A caller that saw a crossing is either about to mark the address degraded, or has returned having done so once. */
  predicate CrosserDegrades(y: System, id: nat) {
    && y.degraders[id] == (if id in y.crossers && id in y.callers && y.callers[id] == Returned then 1 else 0)
    && (id in y.crossers ==> id in y.callers && y.callers[id] in {Returned, MarkDegraded(y.crossers[id], true)})
    && (id in y.callers && y.callers[id].MarkDegraded? && y.callers[id].weak ==>
          id in y.crossers && y.crossers[id] == y.callers[id].ip)
  }

  /** The callers that saw a crossing of ip and have not marked it yet. */
  function PendingOf(y: System, ip: string): set<nat> {
    set id | id in y.callers && y.callers[id] == MarkDegraded(ip, true)
  }

  /** The degrade events of an address are the crossings seen, less those not acted on yet. */
  predicate EventsMatch(y: System, ip: string) {
    y.degrades[ip] + |PendingOf(y, ip)| == |CrossersOf(y, ip)|
  }

  ghost predicate Invariant(cfg: Config, y: System) {
    && (forall ip :: StrikesSpent(cfg, y, ip))
    && (forall id :: CrosserDegrades(y, id))
    && (forall ip :: EventsMatch(y, ip))
  }

  lemma {:induction false} LiveIsShorter(strikes: seq<int>, cutoff: int)
    ensures |Live(strikes, cutoff)| <= |strikes|
  {
    if strikes != [] { LiveIsShorter(strikes[..|strikes| - 1], cutoff); }
  }

  lemma StrikeLeavesOthers(cfg: Config, y: System, id: nat, ip: string, now: int, other: string)
    requires StrikesSpent(cfg, y, other) && other != ip && id !in y.crossers
    ensures StrikesSpent(cfg, StrikeSection(cfg, y, id, ip, now), other)
  {
    hide Live;
    assert CrossersOf(StrikeSection(cfg, y, id, ip, now), other) == CrossersOf(y, other);
  }

  lemma StrikeIsSpent(cfg: Config, y: System, id: nat, ip: string, now: int)
    requires StrikesSpent(cfg, y, ip) && id !in y.crossers
    ensures StrikesSpent(cfg, StrikeSection(cfg, y, id, ip, now), ip)
  {
    hide Live;
    LiveIsShorter(StrikesOf(y.s, ip), now - Window(cfg));
    var before, after := CrossersOf(y, ip), CrossersOf(StrikeSection(cfg, y, id, ip, now), ip);
    if Strike(cfg, y.s, ip, now).0 {
      assert after == before + {id};
      assert cfg.threshold * (|before| + 1) == cfg.threshold * |before| + cfg.threshold;
    }
  }

  /** Steps that only drop strikes, or touch none, keep the account of every address. */
  lemma FewerStrikes(cfg: Config, y: System, y': System, ip: string)
    requires StrikesSpent(cfg, y, ip)
    requires y'.crossers == y.crossers && y'.recorded == y.recorded
    requires StrikesOf(y'.s, ip) == StrikesOf(y.s, ip) || StrikesOf(y'.s, ip) == []
    ensures StrikesSpent(cfg, y', ip)
  {
  }

  predicate IsStrike(y: System, a: Action) {
    a.Move? && a.id in y.callers && y.callers[a.id].StrikeLock?
  }

  lemma StepKeepsStrikes(cfg: Config, y: System, a: Action, ip: string)
    requires Invariant(cfg, y)
    ensures StrikesSpent(cfg, Apply(cfg, y, a), ip)
  {
    hide StrikesSpent;
    if IsStrike(y, a) {
      var pc := y.callers[a.id];
      assert CrosserDegrades(y, a.id);
      if ip == pc.ip {
        StrikeIsSpent(cfg, y, a.id, ip, pc.now);
      } else {
        StrikeLeavesOthers(cfg, y, a.id, pc.ip, pc.now, ip);
      }
    } else {
      FewerStrikes(cfg, y, Apply(cfg, y, a), ip);
    }
  }

  /** A step of another caller, or a cleanup, leaves a caller and its record alone. */
  lemma OtherStep(cfg: Config, y: System, a: Action, id: nat)
    requires a.Cleanup? || a.id != id
    ensures
      var y' := Apply(cfg, y, a);
      && (id in y'.callers <==> id in y.callers) && (id in y.callers ==> y'.callers[id] == y.callers[id])
      && (id in y'.crossers <==> id in y.crossers) && (id in y.crossers ==> y'.crossers[id] == y.crossers[id])
      && y'.degraders[id] == y.degraders[id]
  {
    hide Strike, Sweep, Healthy, Degrade;
  }

  lemma OwnMove(cfg: Config, y: System, id: nat, now: int)
    requires CrosserDegrades(y, id) && id in y.callers
    ensures CrosserDegrades(Apply(cfg, y, Move(id, now)), id)
  {
    hide Strike, Sweep, Healthy, Degrade;
    match y.callers[id]
    case Health(ip) =>
    case Clock(ip) =>
    case StrikeLock(ip, reading) =>
    case MarkDegraded(ip, weak) =>
    case _ =>
  }

  lemma StepKeepsCrosser(cfg: Config, y: System, a: Action, id: nat)
    requires CrosserDegrades(y, id)
    ensures CrosserDegrades(Apply(cfg, y, a), id)
  {
    if a.Cleanup? || a.id != id {
      hide Apply;
      OtherStep(cfg, y, a, id);
    } else if a.Move? && id in y.callers {
      OwnMove(cfg, y, id, a.now);
    }
  }

  /** A step other than a strike or a weak mark leaves the events alone. */
  lemma QuietEvents(cfg: Config, y: System, a: Action, ip: string)
    requires EventsMatch(y, ip) && !IsStrike(y, a) && !IsWeakMark(y, a)
    ensures EventsMatch(Apply(cfg, y, a), ip)
  {
    hide Strike, Sweep, Healthy, Degrade;
    var y' := Apply(cfg, y, a);
    assert y'.crossers == y.crossers && y'.degrades == y.degrades;
    assert PendingOf(y', ip) == PendingOf(y, ip);
  }

  predicate IsWeakMark(y: System, a: Action) {
    a.Move? && a.id in y.callers && y.callers[a.id].MarkDegraded? && y.callers[a.id].weak
  }

  lemma CrossingEvents(y: System, y': System, id: nat, ip: string, other: string)
    requires EventsMatch(y, other) && id in y.callers && y.callers[id].StrikeLock? && id !in y.crossers
    requires y'.callers == y.callers[id := MarkDegraded(ip, true)] && y'.crossers == y.crossers[id := ip]
    requires y'.degrades == y.degrades
    ensures EventsMatch(y', other)
  {
    if other == ip {
      assert PendingOf(y', other) == PendingOf(y, other) + {id};
      assert CrossersOf(y', other) == CrossersOf(y, other) + {id};
    } else {
      assert PendingOf(y', other) == PendingOf(y, other);
      assert CrossersOf(y', other) == CrossersOf(y, other);
    }
  }

  lemma StrikeEvents(cfg: Config, y: System, id: nat, ip: string, now: int, other: string)
    requires id in y.callers && y.callers[id].StrikeLock? && id !in y.crossers && EventsMatch(y, other)
    ensures EventsMatch(StrikeSection(cfg, y, id, ip, now), other)
  {
    hide Strike;
    var y' := StrikeSection(cfg, y, id, ip, now);
    if Strike(cfg, y.s, ip, now).0 {
      hide EventsMatch;
      CrossingEvents(y, y', id, ip, other);
    } else {
      assert PendingOf(y', other) == PendingOf(y, other);
      assert CrossersOf(y', other) == CrossersOf(y, other);
    }
  }

  lemma MarkEvents(cfg: Config, y: System, a: Action, ip: string)
    requires IsWeakMark(y, a) && EventsMatch(y, ip)
    ensures EventsMatch(Apply(cfg, y, a), ip)
  {
    hide Strike, Sweep, Healthy, Degrade;
    var y' := Apply(cfg, y, a);
    assert CrossersOf(y', ip) == CrossersOf(y, ip);
    assert PendingOf(y', ip) == PendingOf(y, ip) - {a.id};
  }

  lemma StepKeepsEvents(cfg: Config, y: System, a: Action, ip: string)
    requires Invariant(cfg, y)
    ensures EventsMatch(Apply(cfg, y, a), ip)
  {
    hide EventsMatch, StrikesSpent, Strike, Sweep, Healthy, Degrade;
    if IsStrike(y, a) {
      var pc := y.callers[a.id];
      assert CrosserDegrades(y, a.id);
      StrikeEvents(cfg, y, a.id, pc.ip, pc.now, ip);
    } else if IsWeakMark(y, a) {
      MarkEvents(cfg, y, a, ip);
    } else {
      QuietEvents(cfg, y, a, ip);
    }
  }

  lemma {:induction false} RunKeepsInvariant(cfg: Config, actions: seq<Action>)
    ensures Invariant(cfg, Run(cfg, actions))
  {
    hide Apply, StrikesSpent, CrosserDegrades, EventsMatch;
    if actions == [] {
      StartInvariant(cfg);
    } else {
      var y, a := Run(cfg, actions[..|actions| - 1]), actions[|actions| - 1];
      RunKeepsInvariant(cfg, actions[..|actions| - 1]);
      forall ip ensures StrikesSpent(cfg, Apply(cfg, y, a), ip) { StepKeepsStrikes(cfg, y, a, ip); }
      forall id ensures CrosserDegrades(Apply(cfg, y, a), id) { StepKeepsCrosser(cfg, y, a, id); }
      forall ip ensures EventsMatch(Apply(cfg, y, a), ip) { StepKeepsEvents(cfg, y, a, ip); }
    }
  }

  lemma StartInvariant(cfg: Config)
    ensures Invariant(cfg, Run(cfg, []))
  {
    forall ip ensures StrikesSpent(cfg, Run(cfg, []), ip) && EventsMatch(Run(cfg, []), ip) {
      assert CrossersOf(Run(cfg, []), ip) == {} && PendingOf(Run(cfg, []), ip) == {};
    }
  }

  // ---------------------------------------------------------------- main results

  /** Whatever the interleaving and the clock readings, crossings are paid for by strikes. */
  lemma CrossingsArePaidFor(cfg: Config, actions: seq<Action>, ip: string)
    ensures
      var y := Run(cfg, actions);
      && cfg.threshold * |CrossersOf(y, ip)| <= y.recorded[ip]
      && (cfg.threshold > 1 ==> |StrikesOf(y.s, ip)| < cfg.threshold)
  {
    RunKeepsInvariant(cfg, actions);
    assert StrikesSpent(cfg, Run(cfg, actions), ip);
  }

  /**
   A caller fires a weak degrade at most once, and only if it saw a crossing; an address has no more weak degrade events
   than crossings, and just as many once all callers have returned, each of those that saw one having fired once.
   */
  lemma EachCrossingDegradesOnce(cfg: Config, actions: seq<Action>, id: nat, ip: string)
    ensures
      var y := Run(cfg, actions);
      && y.degraders[id] <= (if id in y.crossers then 1 else 0) && y.degrades[ip] <= |CrossersOf(y, ip)|
      && ((forall other :: other in y.callers ==> y.callers[other] == Returned) ==>
            y.degraders[id] == (if id in y.crossers then 1 else 0) && y.degrades[ip] == |CrossersOf(y, ip)|)
  {
    hide Run;
    RunKeepsInvariant(cfg, actions);
    var y := Run(cfg, actions);
    assert CrosserDegrades(y, id) && EventsMatch(y, ip);
    if forall other :: other in y.callers ==> y.callers[other] == Returned {
      assert PendingOf(y, ip) == {};
    }
  }

  // ---------------------------------------------------------------- a caller on its own

  /** The clock readings of a caller's four steps: where a weak one stands still between clock and lock, any will do. */
  function Readings(e: Event): seq<int> {
    if e.signal == Weak then [e.tHealthy, e.tStrike, e.tStrike, e.tDegrade]
    else [e.tDegrade, e.tDegrade, e.tDegrade, e.tDegrade]
  }

  function FourMoves(cfg: Config, y: System, id: nat, readings: seq<int>): System
    requires |readings| == 4
  {
    var y1 := Apply(cfg, y, Move(id, readings[0]));
    var y2 := Apply(cfg, y1, Move(id, readings[1]));
    var y3 := Apply(cfg, y2, Move(id, readings[2]));
    Apply(cfg, y3, Move(id, readings[3]))
  }

  /** A caller that nothing interrupts does to the tracker what the sequential code does, and returns. */
  lemma AloneIsSequential(cfg: Config, y: System, id: nat, e: Event)
    requires id !in y.callers
    ensures
      var y' := FourMoves(cfg, Apply(cfg, y, Call(id, e.ip, e.signal)), id, Readings(e));
      var (s, fired) := Step(cfg, y.s, e);
      && id in y'.callers && y'.callers[id] == Returned && y'.s == s
      && (fired && e.signal == Weak <==> y'.degraders[id] == y.degraders[id] + 1)
  {
    hide Strike, Sweep, Healthy, Degrade;
    var y0 := Apply(cfg, y, Call(id, e.ip, e.signal));
    assert y0 == After(y, id, Entry(cfg, e.ip, e.signal));
    if y0.callers[id] == Returned {
      ReturnedStays(cfg, y0, id, Readings(e));
    } else {
      hide Apply, FourMoves;
      match e.signal
      case Weak => WeakAlone(cfg, y0, id, e);
      case Strong => ClearAlone(cfg, y0, id, e, true);
      case Success => ClearAlone(cfg, y0, id, e, false);
      case Neutral => assert false;
    }
  }

  lemma ReturnedStays(cfg: Config, y: System, id: nat, readings: seq<int>)
    requires At(y, id, Returned) && |readings| == 4
    ensures FourMoves(cfg, y, id, readings) == y
  {
    hide Apply;
    forall t: int ensures Apply(cfg, y, Move(id, t)) == y { MoveFrom(cfg, y, id, Returned, t); }
  }

  predicate At(y: System, id: nat, pc: Pc) {
    id in y.callers && y.callers[id] == pc
  }

  /** One move of a caller: where it gets to, and what it does to the tracker and to the count of its weak degrades. */
  lemma MoveFrom(cfg: Config, y: System, id: nat, pc: Pc, now: int)
    requires At(y, id, pc) && !pc.StrikeLock?
    ensures
      var y' := Apply(cfg, y, Move(id, now));
      match pc
      case Health(ip) => At(y', id, if Healthy(cfg, y.s, ip, now) then Clock(ip) else Returned) && Unmoved(y, y')
      case Clock(ip) => At(y', id, StrikeLock(ip, now)) && Unmoved(y, y')
      case StrikeLock(_, _) => true
      case MarkDegraded(ip, weak) =>
        && At(y', id, Returned) && y'.s == Degrade(cfg, y.s, ip, now)
        && y'.degraders == if weak then y.degraders + multiset{id} else y.degraders
      case ClearRead(ip, degrade) =>
        At(y', id, if ip in y.s.strikes then ClearWrite(ip, degrade) else Cleared(ip, degrade)) && Unmoved(y, y')
      case ClearWrite(ip, degrade) =>
        At(y', id, Cleared(ip, degrade)) && y'.s == ClearStrikes(y.s, ip) && y'.degraders == y.degraders
      case RecoverRead(ip) => At(y', id, if ip in y.s.degraded then RecoverWrite(ip) else Returned) && Unmoved(y, y')
      case RecoverWrite(ip) =>
        At(y', id, Returned) && y'.s == y.s.(degraded := y.s.degraded - {ip}) && y'.degraders == y.degraders
      case Returned => y' == y
  {
    hide Strike, Sweep, Healthy, Degrade, ClearStrikes;
  }

  predicate Unmoved(y: System, y': System) {
    y'.s == y.s && y'.degraders == y.degraders
  }

  lemma StrikeFrom(cfg: Config, y: System, id: nat, ip: string, reading: int, now: int)
    requires At(y, id, StrikeLock(ip, reading))
    ensures
      var y' := Apply(cfg, y, Move(id, now));
      var (crossed, s) := Strike(cfg, y.s, ip, reading);
      && At(y', id, if crossed then MarkDegraded(ip, true) else Returned)
      && y'.s == s && y'.degraders == y.degraders
  {
    hide Strike;
  }

  lemma WeakAlone(cfg: Config, y: System, id: nat, e: Event)
    requires At(y, id, Health(e.ip)) && cfg.enabled && e.ip != "" && e.signal == Weak
    ensures
      var y' := FourMoves(cfg, y, id, Readings(e));
      var (s, fired) := Step(cfg, y.s, e);
      && At(y', id, Returned) && y'.s == s
      && y'.degraders == if fired then y.degraders + multiset{id} else y.degraders
  {
    hide Strike, Healthy, Degrade, Apply;
    MoveFrom(cfg, y, id, Health(e.ip), e.tHealthy);
    var y1 := Apply(cfg, y, Move(id, e.tHealthy));
    var y2 := Apply(cfg, y1, Move(id, e.tStrike));
    var y3 := Apply(cfg, y2, Move(id, e.tStrike));
    if Healthy(cfg, y.s, e.ip, e.tHealthy) {
      MoveFrom(cfg, y1, id, Clock(e.ip), e.tStrike);
      StrikeFrom(cfg, y2, id, e.ip, e.tStrike, e.tStrike);
      MoveFrom(cfg, y3, id, y3.callers[id], e.tDegrade);
    } else {
      MoveFrom(cfg, y1, id, Returned, e.tStrike);
      MoveFrom(cfg, y2, id, Returned, e.tStrike);
      MoveFrom(cfg, y3, id, Returned, e.tDegrade);
    }
  }

  lemma ClearAlone(cfg: Config, y: System, id: nat, e: Event, degrade: bool)
    requires At(y, id, ClearRead(e.ip, degrade)) && cfg.enabled && e.ip != ""
    requires e.signal == if degrade then Strong else Success
    ensures
      var y' := FourMoves(cfg, y, id, Readings(e));
      At(y', id, Returned) && y'.s == Step(cfg, y.s, e).0 && y'.degraders == y.degraders
  {
    hide Strike, Healthy, Apply;
    var t := e.tDegrade;
    var y1 := Apply(cfg, y, Move(id, t));
    var y2 := Apply(cfg, y1, Move(id, t));
    var y3 := Apply(cfg, y2, Move(id, t));
    MoveFrom(cfg, y, id, ClearRead(e.ip, degrade), t);
    MoveFrom(cfg, y1, id, y1.callers[id], t);
    MoveFrom(cfg, y2, id, y2.callers[id], t);
    MoveFrom(cfg, y3, id, y3.callers[id], t);
    assert e.ip !in y.s.strikes ==> y.s.strikes - {e.ip} == y.s.strikes;
    assert e.ip !in y.s.degraded ==> y.s.degraded - {e.ip} == y.s.degraded;
  }
}
