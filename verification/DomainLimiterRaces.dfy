/**
 The limiter of one domain under concurrency.  A call looks its limiter up (or stores a new one) and only then takes
 the limiter's lock; a cleanup reads a limiter under its lock and only then deletes whatever is stored.  Calls and
 cleanups interleave at all these points.  Domains do not share limiters, so one domain is enough.
 */
module DomainLimiterRaces {
  import opened Common
  import opened DomainLimiter

  /** A cleanup that was given a limiter, and one that has found it idle, by the reading it started with. */
  datatype Sweep = Seen(limiter: nat) | Doomed(limiter: nat, reading: real)

  /** All limiters ever made, the one stored now, the calls under way with their limiters, and cleanups under way. */
  datatype System = System(
    limiters: seq<Bucket>, current: Option<nat>, callers: map<nat, nat>, sweeps: map<nat, Sweep>)

  datatype Action =
    | Open(id: nat, created: real, at: real)
    | Enter(id: nat, at: real)
    | See(id: nat, at: real)
    | Look(id: nat, reading: real, at: real)
    | Delete(id: nat, at: real)

  const START := System([], None, map[], map[])

  /** LoadOrStore. */
  function OpenLimiter(cfg: Config, y: System, id: nat, created: real): System {
    match y.current
    case Some(g) => y.(callers := y.callers[id := g])
    case None =>
      var g := |y.limiters|;
      y.(limiters := y.limiters + [Bucket(Burst(cfg), created)], current := Some(g), callers := y.callers[id := g])
  }

  /** The call is about to take the lock of an existing limiter. */
  predicate AtLock(y: System, id: nat) {
    id in y.callers && y.callers[id] < |y.limiters|
  }

  /** One step; an action that does not apply leaves the system as it is. */
  function Apply(cfg: Config, y: System, a: Action): System {
    match a
    case Open(id, created, _) => if id in y.callers then y else OpenLimiter(cfg, y, id, created)
    case Enter(id, at) =>
      if !AtLock(y, id) then y
      else
        var g := y.callers[id];
        y.(limiters := y.limiters[g := Take(cfg, y.limiters[g], at).1], callers := y.callers - {id})
    case See(id, _) =>
      if id in y.sweeps || y.current.None? then y else y.(sweeps := y.sweeps[id := Seen(y.current.value)])
    case Look(id, reading, _) =>
      if id !in y.sweeps || !y.sweeps[id].Seen? then y
      else
        var g := y.sweeps[id].limiter;
        if g < |y.limiters| && Idle(y.limiters[g], reading) then y.(sweeps := y.sweeps[id := Doomed(g, reading)])
        else y.(sweeps := y.sweeps - {id})
    case Delete(id, _) =>
      if id !in y.sweeps || !y.sweeps[id].Doomed? then y else y.(current := None, sweeps := y.sweeps - {id})
  }

  function After(cfg: Config, y: System, actions: seq<Action>): System {
    if actions == [] then y else Apply(cfg, After(cfg, y, actions[..|actions| - 1]), actions[|actions| - 1])
  }

  /** The answer to a call: which limiter gave it, when, and whether the call was admitted. */
  datatype Grant = Grant(limiter: nat, at: real, ok: bool)

  function GrantOf(cfg: Config, y: System, a: Action): seq<Grant> {
    if a.Enter? && AtLock(y, a.id) then
      var g := y.callers[a.id];
      [Grant(g, a.at, Take(cfg, y.limiters[g], a.at).0)]
    else []
  }

  function Grants(cfg: Config, y: System, actions: seq<Action>): seq<Grant> {
    if actions == [] then []
    else
      var n := |actions| - 1;
      Grants(cfg, y, actions[..n]) + GrantOf(cfg, After(cfg, y, actions[..n]), actions[n])
  }

  predicate Drops(y: System, a: Action) {
    a.Delete? && a.id in y.sweeps && y.sweeps[a.id].Doomed? && y.current.Some?
  }

  /** How many times a stored limiter is dropped. */
  function Dropped(cfg: Config, y: System, actions: seq<Action>): nat {
    if actions == [] then 0
    else
      var n := |actions| - 1;
      Dropped(cfg, y, actions[..n]) + if Drops(After(cfg, y, actions[..n]), actions[n]) then 1 else 0
  }

  /** Calls admitted by limiters of a set. */
  function AdmittedBy(grants: seq<Grant>, limiters: set<nat>): nat {
    if grants == [] then 0
    else
      var last := grants[|grants| - 1];
      AdmittedBy(grants[..|grants| - 1], limiters) + if last.ok && last.limiter in limiters then 1 else 0
  }

  function Total(grants: seq<Grant>): nat {
    if grants == [] then 0
    else Total(grants[..|grants| - 1]) + if grants[|grants| - 1].ok then 1 else 0
  }

  /** Steps lie between t and end, in order; a reading used by a step was taken no later than the step. */
  predicate InOrder(actions: seq<Action>, t: real, end: real) {
    && (forall i :: 0 <= i < |actions| ==> t <= actions[i].at <= end && Dated(actions[i]))
    && (forall i, j :: 0 <= i < j < |actions| ==> actions[i].at <= actions[j].at)
  }

  predicate Dated(a: Action) {
    match a
    case Open(_, created, at) => created <= at
    case Look(_, reading, at) => reading <= at
    case _ => true
  }

  // ---------------------------------------------------------------- every reachable state

  predicate BucketOk(cfg: Config, y: System, g: nat, t: real) {
    g < |y.limiters| ==> Sound(cfg, Some(y.limiters[g]), t)
  }

  predicate CallerOk(y: System, id: nat) {
    id in y.callers ==> y.callers[id] < |y.limiters|
  }

  ghost predicate Good(cfg: Config, y: System, t: real) {
    && (y.current.Some? ==> y.current.value < |y.limiters|)
    && (forall id :: CallerOk(y, id))
    && (forall g :: BucketOk(cfg, y, g, t))
  }

  lemma StepGood(cfg: Config, y: System, a: Action, t: real)
    requires Good(cfg, y, t) && t <= a.at && Dated(a)
    ensures Good(cfg, Apply(cfg, y, a), a.at)
  {
    hide Take;
    var y' := Apply(cfg, y, a);
    forall id ensures CallerOk(y', id) { assert CallerOk(y, id); }
    forall g: nat ensures BucketOk(cfg, y', g, a.at) {
      assert BucketOk(cfg, y, g, t);
      if a.Enter? && AtLock(y, a.id) && y.callers[a.id] == g {
        StepSound(cfg, Some(y.limiters[g]), Call(a.at), t);
      }
    }
  }

  lemma {:induction false} RunGood(cfg: Config, y: System, actions: seq<Action>, t: real, end: real)
    requires Good(cfg, y, t) && InOrder(actions, t, end) && t <= end
    ensures Good(cfg, After(cfg, y, actions), end)
    ensures actions != [] ==> Good(cfg, After(cfg, y, actions), actions[|actions| - 1].at)
  {
    hide Apply;
    if actions == [] {
      GoodLater(cfg, y, t, end);
    } else {
      var n := |actions| - 1;
      RunGood(cfg, y, actions[..n], t, actions[n].at);
      StepGood(cfg, After(cfg, y, actions[..n]), actions[n], actions[n].at);
      GoodLater(cfg, After(cfg, y, actions), actions[n].at, end);
    }
  }

  lemma GoodLater(cfg: Config, y: System, t: real, end: real)
    requires Good(cfg, y, t) && t <= end
    ensures Good(cfg, y, end)
  {
    forall g ensures BucketOk(cfg, y, g, end) { assert BucketOk(cfg, y, g, t); }
  }

  lemma StartGood(cfg: Config, t: real)
    ensures Good(cfg, START, t)
  {
  }

  // ---------------------------------------------------------------- each limiter pays for its own calls

  /** What a limiter has admitted since from, and what it has left, is covered by a burst and the refill until now. */
  predicate Paid(cfg: Config, y: System, grants: seq<Grant>, g: nat, from: real) {
    var n := AdmittedBy(grants, {g});
    if g >= |y.limiters| then n == 0
    else
      var b := y.limiters[g];
      n == 0 || (from <= b.lastUpdate && n as real + b.tokens <= Burst(cfg) + Earned(cfg, b.lastUpdate - from))
  }

  lemma EnterPays(cfg: Config, y: System, grants: seq<Grant>, id: nat, at: real, from: real)
    requires Good(cfg, y, at) && AtLock(y, id) && from <= at
    requires Paid(cfg, y, grants, y.callers[id], from)
    ensures Paid(cfg, Apply(cfg, y, Enter(id, at)), grants + GrantOf(cfg, y, Enter(id, at)), y.callers[id], from)
  {
    hide Earned, Refilled;
    var g := y.callers[id];
    var b := y.limiters[g];
    assert BucketOk(cfg, y, g, at);
    RefillBounds(cfg, Some(b), at);
    RefilledAtMost(cfg, b, at);
    EarnedGrows(cfg, 0.0, at - from);
    EarnedAdds(cfg, 0.0, 0.0);
    EarnedAdds(cfg, b.lastUpdate - from, at - b.lastUpdate);
    assert at - from == b.lastUpdate - from + (at - b.lastUpdate);
    var gs := grants + GrantOf(cfg, y, Enter(id, at));
    assert gs[..|gs| - 1] == grants;
  }

  lemma StepPays(cfg: Config, y: System, grants: seq<Grant>, a: Action, g: nat, from: real)
    requires Good(cfg, y, a.at) && from <= a.at && Paid(cfg, y, grants, g, from)
    ensures Paid(cfg, Apply(cfg, y, a), grants + GrantOf(cfg, y, a), g, from)
  {
    if a.Enter? && AtLock(y, a.id) {
      if y.callers[a.id] == g {
        EnterPays(cfg, y, grants, a.id, a.at, from);
      } else {
        hide Take, Earned;
        var gs := grants + GrantOf(cfg, y, a);
        assert gs[..|gs| - 1] == grants;
      }
    } else {
      assert grants + [] == grants;
      hide Take, Earned, AdmittedBy;
    }
  }

  lemma {:induction false} RunPays(
      cfg: Config, y: System, actions: seq<Action>, g: nat, from: real, end: real)
    requires Good(cfg, y, from) && InOrder(actions, from, end) && from <= end
    ensures Paid(cfg, After(cfg, y, actions), Grants(cfg, y, actions), g, from)
  {
    if actions != [] {
      hide Paid, Apply, GrantOf;
      var n := |actions| - 1;
      RunPays(cfg, y, actions[..n], g, from, actions[n].at);
      RunGood(cfg, y, actions[..n], from, actions[n].at);
      StepPays(cfg, After(cfg, y, actions[..n]), Grants(cfg, y, actions[..n]), actions[n], g, from);
    }
  }

  /** Under every interleaving, a single limiter admits at most a burst and what it earns in the meantime. */
  lemma EachLimiterBound(cfg: Config, y: System, actions: seq<Action>, g: nat, from: real, end: real)
    requires Good(cfg, y, from) && InOrder(actions, from, end) && from <= end
    ensures AdmittedBy(Grants(cfg, y, actions), {g}) as real <= Burst(cfg) + Earned(cfg, end - from)
  {
    hide Earned, After, Grants;
    RunPays(cfg, y, actions, g, from, end);
    RunGood(cfg, y, actions, from, end);
    var y' := After(cfg, y, actions);
    assert BucketOk(cfg, y', g, end);
    EarnedGrows(cfg, 0.0, end - from);
    EarnedAdds(cfg, 0.0, 0.0);
    if g < |y'.limiters| { EarnedGrows(cfg, y'.limiters[g].lastUpdate - from, end - from); }
  }

  // ---------------------------------------------------------------- how many limiters there are

  /** Limiters that a later call can be given: the one stored at first, and those made since. */
  function Usable(y: System, y': System): set<nat> {
    set g: nat | g < |y'.limiters| && (g >= |y.limiters| || y.current == Some(g))
  }

  /** Limiters that were no longer stored at first. */
  function Orphans(y: System): set<nat> {
    set g: nat | g < |y.limiters| && y.current != Some(g)
  }

  /** The calls under way that hold one of those. */
  function Stragglers(y: System, y': System): set<nat> {
    set id | id in y'.callers && y'.callers[id] in Orphans(y)
  }

  function Stored(y: System): nat {
    if y.current.Some? then 1 else 0
  }

  /** A limiter is made only when none is stored, so drops and the one stored now account for them. */
  ghost predicate Counted(y: System, y': System, drops: nat) {
    && |y.limiters| <= |y'.limiters|
    && (y'.current.Some? ==> y'.current.value in Usable(y, y'))
    && |Usable(y, y')| <= drops + Stored(y')
  }

  lemma StepCounts(cfg: Config, y: System, y': System, a: Action, drops: nat)
    requires Counted(y, y', drops)
    ensures Counted(y, Apply(cfg, y', a), drops + if Drops(y', a) then 1 else 0)
  {
    hide Take;
    var y'' := Apply(cfg, y', a);
    if a.Open? && a.id !in y'.callers && y'.current.None? {
      assert Usable(y, y'') == Usable(y, y') + {|y'.limiters|};
    } else {
      assert |y''.limiters| == |y'.limiters|;
      assert Usable(y, y'') == Usable(y, y');
    }
  }

  lemma {:induction false} RunCounts(cfg: Config, y: System, actions: seq<Action>)
    requires y.current.Some? ==> y.current.value < |y.limiters|
    ensures Counted(y, After(cfg, y, actions), Dropped(cfg, y, actions))
  {
    if actions == [] {
      assert Usable(y, y) == if y.current.Some? then {y.current.value} else {};
    } else {
      hide Counted, Apply;
      var n := |actions| - 1;
      RunCounts(cfg, y, actions[..n]);
      StepCounts(cfg, y, After(cfg, y, actions[..n]), actions[n], Dropped(cfg, y, actions[..n]));
    }
  }

  /** A straggler is answered once. */
  lemma StepStraggles(cfg: Config, y: System, y': System, grants: seq<Grant>, a: Action)
    requires y'.current.Some? ==> y'.current.value < |y'.limiters| && y'.current.value !in Orphans(y)
    requires |y.limiters| <= |y'.limiters|
    requires AdmittedBy(grants, Orphans(y)) + |Stragglers(y, y')| <= |Stragglers(y, y)|
    ensures AdmittedBy(grants + GrantOf(cfg, y', a), Orphans(y)) + |Stragglers(y, Apply(cfg, y', a))| <=
            |Stragglers(y, y)|
  {
    hide Take;
    assert |y'.limiters| !in Orphans(y);
    hide Orphans;
    var y'' := Apply(cfg, y', a);
    if a.Enter? && AtLock(y', a.id) {
      var gs := grants + GrantOf(cfg, y', a);
      assert gs[..|gs| - 1] == grants;
      assert Stragglers(y, y'') == Stragglers(y, y') - {a.id};
    } else {
      assert grants + [] == grants;
      assert Stragglers(y, y'') == Stragglers(y, y');
    }
  }

  lemma {:induction false} RunStraggles(cfg: Config, y: System, actions: seq<Action>)
    requires y.current.Some? ==> y.current.value < |y.limiters|
    ensures AdmittedBy(Grants(cfg, y, actions), Orphans(y)) + |Stragglers(y, After(cfg, y, actions))| <=
            |Stragglers(y, y)|
  {
    if actions != [] {
      hide Apply, GrantOf, Stragglers, AdmittedBy;
      var n := |actions| - 1;
      RunStraggles(cfg, y, actions[..n]);
      RunCounts(cfg, y, actions[..n]);
      StepStraggles(cfg, y, After(cfg, y, actions[..n]), Grants(cfg, y, actions[..n]), actions[n]);
    }
  }

  /** Every answer comes from a limiter of one kind or the other. */
  lemma {:induction false} GrantsAreCovered(cfg: Config, y: System, actions: seq<Action>, n: nat)
    requires y.current.Some? ==> y.current.value < |y.limiters|
    requires |After(cfg, y, actions).limiters| <= n
    ensures forall k :: 0 <= k < |Grants(cfg, y, actions)| ==> Grants(cfg, y, actions)[k].limiter < n
  {
    hide Take;
    if actions != [] {
      GrantsAreCovered(cfg, y, actions[..|actions| - 1], n);
    }
  }

  lemma {:induction false} TotalSplits(grants: seq<Grant>, a: set<nat>, b: set<nat>)
    requires forall k :: 0 <= k < |grants| ==> grants[k].limiter in a || grants[k].limiter in b
    ensures Total(grants) <= AdmittedBy(grants, a) + AdmittedBy(grants, b)
  {
    if grants != [] { TotalSplits(grants[..|grants| - 1], a, b); }
  }

  lemma {:induction false} AdmittedAdds(grants: seq<Grant>, a: set<nat>, g: nat)
    requires g !in a
    ensures AdmittedBy(grants, a + {g}) == AdmittedBy(grants, a) + AdmittedBy(grants, {g})
  {
    if grants != [] { AdmittedAdds(grants[..|grants| - 1], a, g); }
  }

  lemma {:induction false} AdmittedByNone(grants: seq<Grant>)
    ensures AdmittedBy(grants, {}) == 0
  {
    if grants != [] { AdmittedByNone(grants[..|grants| - 1]); }
  }

  function Times(n: nat, each: real): real {
    n as real * each
  }

  lemma TimesSteps(n: nat, each: real)
    ensures Times(0, each) == 0.0 && (n > 0 ==> Times(n, each) == Times(n - 1, each) + each)
  {
  }

  lemma TimesGrows(a: nat, b: nat, each: real)
    requires a <= b && each >= 0.0
    ensures Times(a, each) <= Times(b, each)
  {
  }

  /** A limit on each limiter of a set is, so many times, a limit on all of them. */
  lemma {:induction false} SumOfLimits(grants: seq<Grant>, s: set<nat>, each: real)
    requires forall g :: g in s ==> AdmittedBy(grants, {g}) as real <= each
    ensures AdmittedBy(grants, s) as real <= Times(|s|, each)
    decreases |s|
  {
    hide AdmittedBy, Times;
    TimesSteps(|s|, each);
    if s == {} {
      AdmittedByNone(grants);
    } else {
      var g :| g in s;
      SumOfLimits(grants, s - {g}, each);
      assert s == (s - {g}) + {g};
      AdmittedAdds(grants, s - {g}, g);
    }
  }

  /**
   In every stretch of every run: each drop of a limiter can cost one more burst and refill, and each call that was
   under way with an abandoned limiter when the stretch began can be admitted on top.
   */
  lemma AdmissionBoundUnderRaces(
      cfg: Config, before: seq<Action>, stretch: seq<Action>, start: real, from: real, end: real)
    requires start <= from <= end && InOrder(before, start, from) && InOrder(stretch, from, end)
    ensures
      var y := After(cfg, START, before);
      Total(Grants(cfg, y, stretch)) as real <=
        Times(Dropped(cfg, y, stretch) + 1, Burst(cfg) + Earned(cfg, end - from)) + |Stragglers(y, y)| as real
  {
    hide After, Grants, Dropped, Earned, AdmittedBy, Total, InOrder, Times, Stragglers, Orphans, Usable;
    var y := After(cfg, START, before);
    StartGood(cfg, start);
    RunGood(cfg, START, before, start, from);
    var y' := After(cfg, y, stretch);
    var grants := Grants(cfg, y, stretch);
    var each := Burst(cfg) + Earned(cfg, end - from);
    RunCounts(cfg, y, stretch);
    RunStraggles(cfg, y, stretch);
    TotalOfRun(cfg, y, stretch);
    forall g | g in Usable(y, y') ensures AdmittedBy(grants, {g}) as real <= each {
      EachLimiterBound(cfg, y, stretch, g, from, end);
    }
    SumOfLimits(grants, Usable(y, y'), each);
    EarnedGrows(cfg, 0.0, end - from);
    EarnedAdds(cfg, 0.0, 0.0);
    TimesGrows(|Usable(y, y')|, Dropped(cfg, y, stretch) + 1, each);
  }

  lemma TotalOfRun(cfg: Config, y: System, actions: seq<Action>)
    requires y.current.Some? ==> y.current.value < |y.limiters|
    ensures
      var grants := Grants(cfg, y, actions);
      Total(grants) <= AdmittedBy(grants, Usable(y, After(cfg, y, actions))) + AdmittedBy(grants, Orphans(y))
  {
    hide After, Grants, AdmittedBy, Total;
    RunCounts(cfg, y, actions);
    var n := |After(cfg, y, actions).limiters|;
    GrantsAreCovered(cfg, y, actions, n);
    TotalSplits(Grants(cfg, y, actions), Usable(y, After(cfg, y, actions)), Orphans(y));
  }

  // ---------------------------------------------------------------- spaced calls

  /** A limiter is as new or was last used by one of the calls answered so far. */
  lemma {:induction false} NewOrUsed(cfg: Config, actions: seq<Action>, g: nat, previous: real)
    requires forall k :: 0 <= k < |Grants(cfg, START, actions)| ==> Grants(cfg, START, actions)[k].at <= previous
    ensures
      var y := After(cfg, START, actions);
      g < |y.limiters| ==> y.limiters[g].tokens == Burst(cfg) || y.limiters[g].lastUpdate <= previous
  {
    hide Refilled;
    if actions != [] {
      var n := |actions| - 1;
      var gs, all := Grants(cfg, START, actions[..n]), Grants(cfg, START, actions);
      assert forall k :: 0 <= k < |gs| ==> all[k] == gs[k];
      NewOrUsed(cfg, actions[..n], g, previous);
      var y, a := After(cfg, START, actions[..n]), actions[n];
      if a.Enter? && AtLock(y, a.id) { assert all[|gs|].at == a.at; }
    }
  }

  /** Under every interleaving, a call at least one refill interval after all calls before it is admitted. */
  lemma SpacedCallsAreAdmittedUnderRaces(
      cfg: Config, actions: seq<Action>, id: nat, start: real, previous: real, now: real)
    requires cfg.intervalSeconds > 0 && start <= now && InOrder(actions, start, now)
    requires now - previous >= cfg.intervalSeconds as real
    requires forall k :: 0 <= k < |Grants(cfg, START, actions)| ==> Grants(cfg, START, actions)[k].at <= previous
    requires AtLock(After(cfg, START, actions), id)
    ensures GrantOf(cfg, After(cfg, START, actions), Enter(id, now))[0].ok
  {
    hide Earned, After, Grants;
    var y := After(cfg, START, actions);
    var g := y.callers[id];
    StartGood(cfg, start);
    RunGood(cfg, START, actions, start, now);
    NewOrUsed(cfg, actions, g, previous);
    assert BucketOk(cfg, y, g, now);
    var b := y.limiters[g];
    EarnedGrows(cfg, 0.0, now - b.lastUpdate);
    EarnedAdds(cfg, 0.0, 0.0);
    IntervalEarnsOne(cfg);
    if b.lastUpdate <= previous { EarnedGrows(cfg, cfg.intervalSeconds as real, now - b.lastUpdate); }
  }

  // ---------------------------------------------------------------- drops that hit an unused limiter

  /**
   A cleanup that drops a limiter drops the one it looked at, which has not been used since and which no call holds:
   no call falls between its look and its deletion, or spans the deletion.
   */
  predicate QuietStep(y: System, a: Action) {
    Drops(y, a) ==>
      && y.callers == map[] && y.current == Some(y.sweeps[a.id].limiter)
      && y.current.value < |y.limiters| && Idle(y.limiters[y.current.value], y.sweeps[a.id].reading)
  }

  predicate Quiet(cfg: Config, y: System, actions: seq<Action>) {
    actions == [] ||
    var n := |actions| - 1;
    Quiet(cfg, y, actions[..n]) && QuietStep(After(cfg, y, actions[..n]), actions[n])
  }

  /** The stored limiter. */
  function Bucket0(y: System): Option<Bucket> {
    if y.current.Some? && y.current.value < |y.limiters| then Some(y.limiters[y.current.value]) else None
  }

  /** Two limiters that no call from t on can tell apart. */
  ghost predicate Alike(cfg: Config, a: Option<Bucket>, b: Option<Bucket>, t: real) {
    forall now :: t <= now ==> Refilled(cfg, Opened(cfg, a, now), now) == Refilled(cfg, Opened(cfg, b, now), now)
  }

  lemma AlikeTake(cfg: Config, a: Option<Bucket>, b: Option<Bucket>, t: real, now: real)
    requires Alike(cfg, a, b, t) && t <= now
    ensures Take(cfg, Opened(cfg, a, now), now) == Take(cfg, Opened(cfg, b, now), now)
  {
    hide Refilled;
  }

  lemma NewIsFull(cfg: Config, created: real, t: real)
    requires created <= t
    ensures Alike(cfg, Some(Bucket(Burst(cfg), created)), None, t)
  {
    hide Earned;
    forall now | t <= now
      ensures Refilled(cfg, Bucket(Burst(cfg), created), now) == Refilled(cfg, Opened(cfg, None, now), now)
    {
      EarnedGrows(cfg, 0.0, now - created);
      EarnedAdds(cfg, 0.0, 0.0);
    }
  }

  lemma IdleIsFull(cfg: Config, b: Bucket, reading: real, t: real)
    requires FillsWhileIdle(cfg) && Idle(b, reading) && reading <= t && b.tokens >= 0.0
    ensures Alike(cfg, Some(b), None, t)
  {
    hide Earned;
    forall now | t <= now ensures Refilled(cfg, b, now) == Refilled(cfg, Opened(cfg, None, now), now) {
      EarnedGrows(cfg, IDLE_LIMIT, now - b.lastUpdate);
      EarnedAdds(cfg, 0.0, 0.0);
    }
  }

  /** The answers given, and the calls they were given to. */
  function Oks(grants: seq<Grant>): (oks: seq<bool>)
    ensures |oks| == |grants|
  {
    seq(|grants|, k requires 0 <= k < |grants| => grants[k].ok)
  }

  function CallsOf(grants: seq<Grant>): (calls: seq<Event>)
    ensures |calls| == |grants| && forall k :: 0 <= k < |calls| ==> calls[k] == Call(grants[k].at)
  {
    seq(|grants|, k requires 0 <= k < |grants| => Call(grants[k].at))
  }

  /** Every call under way holds the stored limiter. */
  ghost predicate Together(y: System) {
    forall id :: id in y.callers ==> y.current == Some(y.callers[id])
  }

  /** Dooms are dated: the reading of a cleanup is not later than t. */
  ghost predicate DoomsDated(y: System, t: real) {
    forall id :: id in y.sweeps && y.sweeps[id].Doomed? ==> y.sweeps[id].reading <= t
  }

  /** The stored limiter stands for a bucket that was never dropped. */
  ghost predicate Simulates(cfg: Config, y: System, s: Option<Bucket>, t: real) {
    Good(cfg, y, t) && Together(y) && DoomsDated(y, t) && Alike(cfg, Bucket0(y), s, t)
  }

  lemma EnterSimulates(cfg: Config, y: System, s: Option<Bucket>, id: nat, at: real)
    requires Simulates(cfg, y, s, at) && AtLock(y, id)
    ensures Simulates(cfg, Apply(cfg, y, Enter(id, at)), Some(Take(cfg, Opened(cfg, s, at), at).1), at)
    ensures Take(cfg, y.limiters[y.callers[id]], at) == Take(cfg, Opened(cfg, s, at), at)
  {
    hide Take, Refilled;
    assert y.current == Some(y.callers[id]);
    AlikeTake(cfg, Bucket0(y), s, at, at);
    StepGood(cfg, y, Enter(id, at), at);
  }

  lemma OtherSimulates(cfg: Config, y: System, s: Option<Bucket>, a: Action)
    requires FillsWhileIdle(cfg) && Simulates(cfg, y, s, a.at) && Dated(a) && QuietStep(y, a)
    requires !(a.Enter? && AtLock(y, a.id))
    ensures Simulates(cfg, Apply(cfg, y, a), s, a.at)
  {
    hide Take, Refilled, FillsWhileIdle;
    StepGood(cfg, y, a, a.at);
    if a.Open? && a.id !in y.callers && y.current.None? {
      NewIsFull(cfg, a.created, a.at);
    } else if Drops(y, a) {
      assert BucketOk(cfg, y, y.current.value, a.at);
      IdleIsFull(cfg, Bucket0(y).value, y.sweeps[a.id].reading, a.at);
    }
  }

  lemma SimulatesLater(cfg: Config, y: System, s: Option<Bucket>, t: real, end: real)
    requires Simulates(cfg, y, s, t) && t <= end
    ensures Simulates(cfg, y, s, end)
  {
    hide Refilled;
    GoodLater(cfg, y, t, end);
  }

  /** In a quiet run the calls are answered as by a single limiter that is never dropped, if ten minutes fill it. */
  lemma {:induction false} QuietRunsSimulate(
      cfg: Config, y: System, s: Option<Bucket>, actions: seq<Action>, t: real, end: real)
    requires FillsWhileIdle(cfg) && Simulates(cfg, y, s, t) && InOrder(actions, t, end) && t <= end
    requires Quiet(cfg, y, actions)
    ensures
      var grants := Grants(cfg, y, actions);
      && Oks(grants) == Answers(cfg, s, CallsOf(grants))
      && Simulates(cfg, After(cfg, y, actions), DomainLimiter.After(cfg, s, CallsOf(grants)), end)
  {
    hide Simulates, Apply, Take, FillsWhileIdle, QuietStep, GrantOf, Drops;
    if actions == [] {
      SimulatesLater(cfg, y, s, t, end);
    } else {
      var n := |actions| - 1;
      var a, y' := actions[n], After(cfg, y, actions[..n]);
      var grants := Grants(cfg, y, actions[..n]);
      QuietRunsSimulate(cfg, y, s, actions[..n], t, a.at);
      QuietExtends(cfg, y', DomainLimiter.After(cfg, s, CallsOf(grants)), a, s, grants);
      SimulatesLater(cfg, After(cfg, y, actions),
                     DomainLimiter.After(cfg, s, CallsOf(Grants(cfg, y, actions))), a.at, end);
    }
  }

  lemma QuietExtends(cfg: Config, y: System, s': Option<Bucket>, a: Action, s: Option<Bucket>, grants: seq<Grant>)
    requires FillsWhileIdle(cfg) && Simulates(cfg, y, s', a.at) && Dated(a) && QuietStep(y, a)
    requires Oks(grants) == Answers(cfg, s, CallsOf(grants)) && s' == DomainLimiter.After(cfg, s, CallsOf(grants))
    ensures
      var all := grants + GrantOf(cfg, y, a);
      && Oks(all) == Answers(cfg, s, CallsOf(all))
      && Simulates(cfg, Apply(cfg, y, a), DomainLimiter.After(cfg, s, CallsOf(all)), a.at)
  {
    hide Simulates, Take, FillsWhileIdle, QuietStep, Drops, Answers, DomainLimiter.After;
    if a.Enter? && AtLock(y, a.id) {
      EnterSimulates(cfg, y, s', a.id, a.at);
      var all := grants + GrantOf(cfg, y, a);
      assert CallsOf(all) == CallsOf(grants) + [Call(a.at)];
      AnswersConcat(cfg, s, CallsOf(grants), [Call(a.at)]);
      AfterConcat(cfg, s, CallsOf(grants), [Call(a.at)]);
      OneCall(cfg, s', a.at);
      assert Oks(all) == Oks(grants) + [all[|grants|].ok];
    } else {
      assert grants + [] == grants;
      OtherSimulates(cfg, y, s', a);
    }
  }

  lemma OneCall(cfg: Config, s: Option<Bucket>, at: real)
    ensures Answers(cfg, s, [Call(at)]) == [Take(cfg, Opened(cfg, s, at), at).0]
    ensures DomainLimiter.After(cfg, s, [Call(at)]) == Some(Take(cfg, Opened(cfg, s, at), at).1)
  {
    hide Take;
    assert [Call(at)][1..] == [];
  }

  lemma {:induction false} AfterConcat(cfg: Config, s: Option<Bucket>, a: seq<Event>, b: seq<Event>)
    ensures DomainLimiter.After(cfg, s, a + b) == DomainLimiter.After(cfg, DomainLimiter.After(cfg, s, a), b)
    decreases a
  {
    hide Step;
    if a == [] {
      assert a + b == b;
    } else {
      assert (a + b)[1..] == a[1..] + b;
      AfterConcat(cfg, Step(cfg, s, a[0]), a[1..], b);
    }
  }

  lemma {:induction false} GrantsInOrder(cfg: Config, y: System, actions: seq<Action>, t: real, end: real)
    requires InOrder(actions, t, end)
    ensures From(CallsOf(Grants(cfg, y, actions)), t)
    ensures forall k :: 0 <= k < |Grants(cfg, y, actions)| ==> Grants(cfg, y, actions)[k].at <= end
  {
    hide Take, After;
    if actions != [] {
      GrantsInOrder(cfg, y, actions[..|actions| - 1], t, actions[|actions| - 1].at);
    }
  }

  lemma {:induction false} TotalIsAdmitted(grants: seq<Grant>)
    ensures Total(grants) == Admitted(Oks(grants))
  {
    if grants != [] {
      var n := |grants| - 1;
      TotalIsAdmitted(grants[..n]);
      assert Oks(grants) == Oks(grants[..n]) + [grants[n].ok];
      AdmittedConcat(Oks(grants[..n]), [grants[n].ok]);
      assert [grants[n].ok][1..] == [];
    }
  }

  lemma StartSimulates(cfg: Config, t: real)
    ensures Simulates(cfg, START, None, t)
  {
  }

  /** The bound of a single limiter, in every stretch of a quiet run, if ten minutes fill a bucket. */
  lemma AdmissionBoundWhenQuiet(
      cfg: Config, before: seq<Action>, stretch: seq<Action>, start: real, from: real, end: real)
    requires FillsWhileIdle(cfg) && start <= from <= end && InOrder(before, start, from) && InOrder(stretch, from, end)
    requires Quiet(cfg, START, before) && Quiet(cfg, After(cfg, START, before), stretch)
    ensures
      var y := After(cfg, START, before);
      Total(Grants(cfg, y, stretch)) as real <= Burst(cfg) + Earned(cfg, end - from)
  {
    hide FillsWhileIdle, Earned, After, Grants, Quiet, Simulates, Total, InOrder;
    hide Answers, DomainLimiter.After, Admitted;
    var y := After(cfg, START, before);
    var first, second := CallsOf(Grants(cfg, START, before)), CallsOf(Grants(cfg, y, stretch));
    StartSimulates(cfg, start);
    QuietRunsSimulate(cfg, START, None, before, start, from);
    var s := DomainLimiter.After(cfg, None, first);
    QuietRunsSimulate(cfg, y, s, stretch, from, end);
    GrantsInOrder(cfg, START, before, start, from);
    GrantsInOrder(cfg, y, stretch, from, end);
    AfterSound(cfg, None, first, start, from);
    CallsBound(cfg, s, second, from, end);
    TotalIsAdmitted(Grants(cfg, y, stretch));
  }

  // ---------------------------------------------------------------- calls and cleanups one at a time

  /** The steps of a call or a cleanup that nothing comes between. */
  function Moves(e: Event): seq<Action> {
    match e
    case Call(at) => [Open(0, at, at), Enter(0, at)]
    case Clean(at) => [See(0, at), Look(0, at, at), Delete(0, at)]
  }

  function Schedule(es: seq<Event>): seq<Action> {
    if es == [] then [] else Moves(es[0]) + Schedule(es[1..])
  }

  lemma {:induction false} RunsConcat(cfg: Config, y: System, a: seq<Action>, b: seq<Action>)
    ensures After(cfg, y, a + b) == After(cfg, After(cfg, y, a), b)
    ensures Grants(cfg, y, a + b) == Grants(cfg, y, a) + Grants(cfg, After(cfg, y, a), b)
    ensures Dropped(cfg, y, a + b) == Dropped(cfg, y, a) + Dropped(cfg, After(cfg, y, a), b)
    ensures Quiet(cfg, y, a + b) <==> Quiet(cfg, y, a) && Quiet(cfg, After(cfg, y, a), b)
  {
    hide Apply, GrantOf, Drops, QuietStep;
    if b == [] {
      assert a + b == a;
    } else {
      var n := |b| - 1;
      assert (a + b)[..|a| + n] == a + b[..n] && (a + b)[|a| + n] == b[n];
      RunsConcat(cfg, y, a, b[..n]);
      var mid := After(cfg, y, a);
      var g := GrantOf(cfg, After(cfg, mid, b[..n]), b[n]);
      assert Grants(cfg, y, a) + Grants(cfg, mid, b[..n]) + g == Grants(cfg, y, a) + (Grants(cfg, mid, b[..n]) + g);
    }
  }

  /** No call is under way. */
  predicate AtRest(y: System) {
    y.callers == map[] && (y.current.Some? ==> y.current.value < |y.limiters|)
  }

  lemma TwoSteps(cfg: Config, y: System, a: Action, b: Action)
    ensures
      var y' := Apply(cfg, y, a);
      && After(cfg, y, [a, b]) == Apply(cfg, y', b)
      && Grants(cfg, y, [a, b]) == GrantOf(cfg, y, a) + GrantOf(cfg, y', b)
      && Dropped(cfg, y, [a, b]) == (if Drops(y, a) then 1 else 0) + (if Drops(y', b) then 1 else 0)
      && (Quiet(cfg, y, [a, b]) <==> QuietStep(y, a) && QuietStep(y', b))
  {
    hide After, Grants, Dropped, Quiet, Apply, GrantOf, Drops, QuietStep;
    OneStep(cfg, y, a);
    OneStep(cfg, Apply(cfg, y, a), b);
    RunsConcat(cfg, y, [a], [b]);
    assert [a, b] == [a] + [b];
  }

  lemma OneStep(cfg: Config, y: System, a: Action)
    ensures After(cfg, y, [a]) == Apply(cfg, y, a) && Grants(cfg, y, [a]) == GrantOf(cfg, y, a)
    ensures Dropped(cfg, y, [a]) == (if Drops(y, a) then 1 else 0) && (Quiet(cfg, y, [a]) <==> QuietStep(y, a))
  {
    hide Apply, GrantOf, Drops, QuietStep;
    assert [a][..0] == [] && [] + GrantOf(cfg, y, a) == GrantOf(cfg, y, a);
  }

  /** What a call on its own does. */
  lemma CallMoves(cfg: Config, y: System, at: real)
    requires AtRest(y)
    ensures
      var y' := After(cfg, y, Moves(Call(at)));
      var (ok, b) := Take(cfg, Opened(cfg, Bucket0(y), at), at);
      && AtRest(y') && y'.sweeps == y.sweeps && Bucket0(y') == Some(b)
      && (y.current.Some? ==> y'.current == y.current)
      && Oks(Grants(cfg, y, Moves(Call(at)))) == [ok] && CallsOf(Grants(cfg, y, Moves(Call(at)))) == [Call(at)]
      && Dropped(cfg, y, Moves(Call(at))) == 0 && Quiet(cfg, y, Moves(Call(at)))
  {
    hide Take;
    TwoSteps(cfg, y, Open(0, at, at), Enter(0, at));
    hide After, Grants, Dropped, Quiet;
    var y1 := Apply(cfg, y, Open(0, at, at));
    assert AtLock(y1, 0) && y1.callers - {0} == map[];
  }

  /** What a cleanup on its own does. */
  lemma CleanMoves(cfg: Config, y: System, at: real)
    requires AtRest(y) && y.sweeps == map[]
    ensures
      var y' := After(cfg, y, Moves(Clean(at)));
      && AtRest(y') && y'.sweeps == map[] && Bucket0(y') == Step(cfg, Bucket0(y), Clean(at))
      && Grants(cfg, y, Moves(Clean(at))) == [] && Quiet(cfg, y, Moves(Clean(at)))
  {
    hide Take;
    var a, b, c := See(0, at), Look(0, at, at), Delete(0, at);
    assert Moves(Clean(at)) == [a, b] + [c];
    RunsConcat(cfg, y, [a, b], [c]);
    TwoSteps(cfg, y, a, b);
    var y1 := Apply(cfg, y, a);
    var y2 := Apply(cfg, y1, b);
    OneStep(cfg, y2, c);
    hide After, Grants, Dropped, Quiet;
    if y.current.Some? {
      assert y1.sweeps == map[0 := Seen(y.current.value)];
    }
  }

  /** Calls and cleanups one after another are runs of the system, and quiet ones. */
  lemma {:induction false} ScheduleRuns(cfg: Config, y: System, es: seq<Event>)
    requires AtRest(y) && (y.sweeps == map[] || forall i :: 0 <= i < |es| ==> es[i].Call?)
    ensures
      var y' := After(cfg, y, Schedule(es));
      var grants := Grants(cfg, y, Schedule(es));
      && AtRest(y') && y'.sweeps == y.sweeps && Bucket0(y') == DomainLimiter.After(cfg, Bucket0(y), es)
      && Oks(grants) == Answers(cfg, Bucket0(y), es) && CallsOf(grants) == Calls(es)
      && Quiet(cfg, y, Schedule(es))
    decreases es
  {
    hide Apply, Take, AtRest, Bucket0, GrantOf, QuietStep, Drops, Moves;
    if es == [] {
      ShortRun(cfg, y);
    } else {
      hide After, Grants, Quiet, Oks, CallsOf;
      var e, rest := es[0], es[1..];
      var y' := After(cfg, y, Moves(e));
      RunsConcat(cfg, y, Moves(e), Schedule(rest));
      if e.Call? { CallMoves(cfg, y, e.at); } else { CleanMoves(cfg, y, e.at); }
      ScheduleRuns(cfg, y', rest);
      GrantsConcat(Grants(cfg, y, Moves(e)), Grants(cfg, y', Schedule(rest)));
    }
  }

  lemma GrantsConcat(a: seq<Grant>, b: seq<Grant>)
    ensures Oks(a + b) == Oks(a) + Oks(b) && CallsOf(a + b) == CallsOf(a) + CallsOf(b)
  {
  }

  lemma ShortRun(cfg: Config, y: System)
    ensures After(cfg, y, []) == y && Grants(cfg, y, []) == [] && Quiet(cfg, y, [])
  {
  }

  lemma {:induction false} ScheduleInOrder(es: seq<Event>, t: real, end: real)
    requires From(es, t) && forall i :: 0 <= i < |es| ==> es[i].at <= end
    ensures InOrder(Schedule(es), t, end)
  {
    if es != [] {
      ScheduleInOrder(es[1..], es[0].at, end);
      var m, rest := Moves(es[0]), Schedule(es[1..]);
      var all := m + rest;
      assert forall i :: 0 <= i < |m| ==> m[i].at == es[0].at && Dated(m[i]);
      assert forall i :: |m| <= i < |all| ==> all[i] == rest[i - |m|];
    }
  }

  /**
   Exactly when ten minutes fill a bucket, dropping limiters that are not in use is invisible: in every quiet run the
   calls are answered as by one limiter that is never dropped.
   */
  lemma QuietDropsAreInvisibleIff(cfg: Config)
    ensures FillsWhileIdle(cfg) <==>
            forall actions: seq<Action>, t: real, end: real ::
              t <= end && InOrder(actions, t, end) && Quiet(cfg, START, actions) ==>
                Oks(Grants(cfg, START, actions)) == Answers(cfg, None, CallsOf(Grants(cfg, START, actions)))
  {
    hide FillsWhileIdle, Quiet, Grants, Answers, InOrder, Calls, Trial, Simulates, DomainLimiter.After, After;
    if FillsWhileIdle(cfg) {
      forall actions: seq<Action>, t: real, end: real
        | t <= end && InOrder(actions, t, end) && Quiet(cfg, START, actions)
        ensures Oks(Grants(cfg, START, actions)) == Answers(cfg, None, CallsOf(Grants(cfg, START, actions)))
      {
        StartSimulates(cfg, t);
        QuietRunsSimulate(cfg, START, None, actions, t, end);
      }
    } else {
      var actions := Schedule(Trial(cfg));
      TrialInOrder(cfg);
      ScheduleInOrder(Trial(cfg), 0.0, JustPast(cfg));
      ScheduleRuns(cfg, START, Trial(cfg));
      DroppingShows(cfg);
      assert InOrder(actions, 0.0, JustPast(cfg)) && Quiet(cfg, START, actions);
    }
  }

  lemma TrialInOrder(cfg: Config)
    requires !FillsWhileIdle(cfg)
    ensures From(Trial(cfg), 0.0) && 0.0 <= JustPast(cfg)
    ensures forall i :: 0 <= i < |Trial(cfg)| ==> Trial(cfg)[i].at <= JustPast(cfg)
  {
    hide JustPast;
    NotYetFull(cfg);
  }

  // ---------------------------------------------------------------- a drop that hits a limiter in use

  /** Long enough after 0 for a limiter to be idle, and full. */
  function WhenFull(cfg: Config): real {
    IDLE_LIMIT + 1.0 + Burst(cfg) / Rate(cfg)
  }

  lemma FullByThen(cfg: Config)
    ensures WhenFull(cfg) > IDLE_LIMIT && Earned(cfg, WhenFull(cfg)) >= Burst(cfg)
  {
    var d := Burst(cfg) / Rate(cfg);
    assert d * Rate(cfg) == Burst(cfg);
    assert d > 0.0;
    EarnedAdds(cfg, IDLE_LIMIT + 1.0, d);
    EarnedGrows(cfg, 0.0, IDLE_LIMIT + 1.0);
    EarnedAdds(cfg, 0.0, 0.0);
  }

  /** One call, and when its limiter has been idle a cleanup that has found it so. */
  function RaceBefore(cfg: Config): seq<Action> {
    var t := WhenFull(cfg);
    Schedule([Call(0.0)]) + [See(0, t), Look(0, t, t)]
  }

  /** A burst of calls, the deletion, and another burst, all at one instant. */
  function RaceStretch(cfg: Config): seq<Action> {
    var t := WhenFull(cfg);
    var burst := Schedule(Repeat(t, WholeBurst(cfg)));
    burst + ([Delete(0, t)] + burst)
  }

  /** A burst of calls one after another leaves the system at rest, and all are admitted by a full limiter. */
  lemma BurstRuns(cfg: Config, y: System, t: real)
    requires AtRest(y) && Refilled(cfg, Opened(cfg, Bucket0(y), t), t) == Burst(cfg)
    ensures
      var burst := Schedule(Repeat(t, WholeBurst(cfg)));
      var y' := After(cfg, y, burst);
      && AtRest(y') && y'.sweeps == y.sweeps && y'.current.Some?
      && Total(Grants(cfg, y, burst)) == WholeBurst(cfg) && Dropped(cfg, y, burst) == 0
  {
    hide AtRest, Total, Refilled, Grants, After, Schedule, Answers, Admitted, DomainLimiter.After, Dropped;
    var es := Repeat(t, WholeBurst(cfg));
    CallsDeleteNothing(es);
    OnlyDeletesDrop(cfg, y, Schedule(es));
    ScheduleRuns(cfg, y, es);
    Drains(cfg, Bucket0(y), t, WholeBurst(cfg));
    TotalIsAdmitted(Grants(cfg, y, Schedule(es)));
  }

  lemma {:induction false} OnlyDeletesDrop(cfg: Config, y: System, actions: seq<Action>)
    requires forall i :: 0 <= i < |actions| ==> !actions[i].Delete?
    ensures Dropped(cfg, y, actions) == 0
  {
    if actions != [] { OnlyDeletesDrop(cfg, y, actions[..|actions| - 1]); }
  }

  lemma {:induction false} CallsDeleteNothing(es: seq<Event>)
    requires forall i :: 0 <= i < |es| ==> es[i].Call?
    ensures forall i :: 0 <= i < |Schedule(es)| ==> !Schedule(es)[i].Delete?
  {
    if es != [] { CallsDeleteNothing(es[1..]); }
  }

  lemma {:induction false} TotalConcat(a: seq<Grant>, b: seq<Grant>)
    ensures Total(a + b) == Total(a) + Total(b)
  {
    if b == [] {
      assert a + b == a;
    } else {
      assert (a + b)[..|a| + |b| - 1] == a + b[..|b| - 1];
      TotalConcat(a, b[..|b| - 1]);
    }
  }

  lemma LookDooms(cfg: Config, y: System, t: real)
    requires AtRest(y) && y.sweeps == map[] && Bucket0(y).Some? && Idle(Bucket0(y).value, t)
    ensures
      var y' := After(cfg, y, [See(0, t), Look(0, t, t)]);
      AtRest(y') && 0 in y'.sweeps && y'.sweeps[0].Doomed? && Bucket0(y') == Bucket0(y)
  {
    TwoSteps(cfg, y, See(0, t), Look(0, t, t));
    hide After;
    assert Apply(cfg, y, See(0, t)).sweeps[0] == Seen(y.current.value);
  }

  lemma FirstCall(cfg: Config)
    ensures
      var y := After(cfg, START, Schedule([Call(0.0)]));
      AtRest(y) && y.sweeps == map[] && Bucket0(y) == Some(Bucket(Burst(cfg) - 1.0, 0.0))
  {
    hide Earned, After;
    ScheduleRuns(cfg, START, [Call(0.0)]);
    OneCall(cfg, None, 0.0);
    EarnedAdds(cfg, 0.0, 0.0);
  }

  /** The cleanup has found the limiter idle; the limiter is full. */
  lemma BeforeTheRace(cfg: Config)
    ensures
      var y := After(cfg, START, RaceBefore(cfg));
      var t := WhenFull(cfg);
      && AtRest(y) && 0 in y.sweeps && y.sweeps[0].Doomed?
      && Refilled(cfg, Opened(cfg, Bucket0(y), t), t) == Burst(cfg)
  {
    hide Earned, WhenFull, After, Schedule, Bucket0, AtRest, Grants, Dropped, Quiet;
    var t := WhenFull(cfg);
    FullByThen(cfg);
    FirstCall(cfg);
    RunsConcat(cfg, START, Schedule([Call(0.0)]), [See(0, t), Look(0, t, t)]);
    LookDooms(cfg, After(cfg, START, Schedule([Call(0.0)])), t);
  }

  /**
   Whatever the configuration, calls that fall between a cleanup's look and its deletion are admitted beyond the bound
   of a single limiter: two bursts at one instant, for one drop, which is the bound under races.
   */
  lemma RaceDoublesTheBurst(cfg: Config)
    ensures
      var t := WhenFull(cfg);
      var y := After(cfg, START, RaceBefore(cfg));
      && InOrder(RaceBefore(cfg), 0.0, t) && InOrder(RaceStretch(cfg), t, t) && Stragglers(y, y) == {}
      && Total(Grants(cfg, y, RaceStretch(cfg))) == 2 * WholeBurst(cfg) && Dropped(cfg, y, RaceStretch(cfg)) == 1
      && Total(Grants(cfg, y, RaceStretch(cfg))) as real > Burst(cfg) + Earned(cfg, 0.0)
  {
    RaceInOrder(cfg);
    hide Refilled, Grants, After, Schedule, WhenFull, InOrder, Total, Dropped, RaceBefore, Earned;
    var t := WhenFull(cfg);
    var burst := Schedule(Repeat(t, WholeBurst(cfg)));
    var y := After(cfg, START, RaceBefore(cfg));
    BeforeTheRace(cfg);
    BurstRuns(cfg, y, t);
    var y1 := After(cfg, y, burst);
    OneStep(cfg, y1, Delete(0, t));
    var y2 := Apply(cfg, y1, Delete(0, t));
    assert Bucket0(y2) == None;
    EarnedAdds(cfg, 0.0, 0.0);
    FullWhenNew(cfg, t);
    BurstRuns(cfg, y2, t);
    RunsConcat(cfg, y, burst, [Delete(0, t)] + burst);
    RunsConcat(cfg, y1, [Delete(0, t)], burst);
    TotalConcat(Grants(cfg, y, burst), Grants(cfg, y1, [Delete(0, t)] + burst));
    TotalConcat(Grants(cfg, y1, [Delete(0, t)]), Grants(cfg, y2, burst));
    assert Total([]) == 0 by { NoGrants(); }
  }

  lemma NoGrants()
    ensures Total([]) == 0
  {
  }

  lemma FullWhenNew(cfg: Config, t: real)
    ensures Refilled(cfg, Opened(cfg, None, t), t) == Burst(cfg)
  {
  }

  lemma RaceInOrder(cfg: Config)
    ensures InOrder(RaceBefore(cfg), 0.0, WhenFull(cfg)) && InOrder(RaceStretch(cfg), WhenFull(cfg), WhenFull(cfg))
  {
    hide Schedule, WhenFull, Earned;
    FullByThen(cfg);
    var t := WhenFull(cfg);
    ScheduleInOrder([Call(0.0)], 0.0, 0.0);
    ScheduleInOrder(Repeat(t, WholeBurst(cfg)), t, t);
  }
}