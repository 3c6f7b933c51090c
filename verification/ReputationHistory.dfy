/**
 In every sequential run the tracker's decisions are a function of the history of attempts alone: no stored state, no
 pruning, no cleanup.
 */
module ReputationHistory {
  import opened Reputation

  datatype Action = Attempt(e: Event) | Clean(c: SweepClock)

  function Begins(a: Action): int {
    match a
    case Attempt(e) => e.tHealthy
    case Clean(c) => c.t0
  }

  function Ends(a: Action): int {
    match a
    case Attempt(e) => e.tDegrade
    case Clean(c) => c.t2
  }

  ghost predicate WellTimed(a: Action) {
    match a
    case Attempt(e) => e.tHealthy <= e.tStrike <= e.tDegrade
    case Clean(c) => c.t0 <= c.t2 && forall ip :: c.t0 <= c.clock(ip) <= c.t2
  }

  /** A sequential run: the clock never goes back within an action or from one to the next. */
  ghost predicate Sequential(run: seq<Action>) {
    && (forall i :: 0 <= i < |run| ==> WellTimed(run[i]))
    && (forall i, j :: 0 <= i < j < |run| ==> Ends(run[i]) <= Begins(run[j]))
  }

  function Perform(cfg: Config, s: State, a: Action): (State, bool) {
    match a
    case Attempt(e) => Step(cfg, s, e)
    case Clean(c) => (Sweep(cfg, s, c), false)
  }

  function StateAfter(cfg: Config, run: seq<Action>, n: nat): State
    requires n <= |run|
  {
    if n == 0 then State(map[], map[]) else Perform(cfg, StateAfter(cfg, run, n - 1), run[n - 1]).0
  }

  /** The attempts among the first n actions, in order. */
  function Attempts(run: seq<Action>, n: nat): (h: seq<Event>)
    requires n <= |run|
  {
    if n == 0 then []
    else Attempts(run, n - 1) + (if run[n - 1].Attempt? then [run[n - 1].e] else [])
  }

  lemma {:induction false} AttemptsPrefix(run: seq<Action>, n: nat, m: nat)
    requires n <= m <= |run|
    ensures Attempts(run, n) <= Attempts(run, m)
  {
    if n < m { AttemptsPrefix(run, n, m - 1); }
  }

  lemma AttemptAt(run: seq<Action>, n: nat)
    requires n < |run| && run[n].Attempt?
    ensures |Attempts(run, n)| < |Attempts(run, |run|)|
    ensures Attempts(run, |run|)[|Attempts(run, n)|] == run[n].e
  {
    AttemptsPrefix(run, n + 1, |run|);
    assert Attempts(run, n + 1)[|Attempts(run, n)|] == run[n].e;
  }

  // ---------------------------------------------------------------- decisions as a function of the history

  /** The rolling window in seconds: the configured minutes, half an hour by default. */
  function WindowSeconds(cfg: Config): int {
    if cfg.windowMinutes <= 0 then 1800 else 60 * cfg.windowMinutes
  }

  /** The last success or degrade of ip before index i, or -1. */
  function LastReset(cfg: Config, h: seq<Event>, ip: string, i: nat): (r: int)
    requires i <= |h|
    ensures -1 <= r < i
    ensures r >= 0 ==> h[r].ip == ip
    decreases i, 0
  {
    if i == 0 then -1
    else if h[i - 1].ip == ip && Resets(cfg, h, i - 1) then i - 1
    else LastReset(cfg, h, ip, i - 1)
  }

  predicate Resets(cfg: Config, h: seq<Event>, i: nat)
    requires i < |h|
    decreases i, 3
  {
    h[i].signal == Success || Degrades(cfg, h, i)
  }

  /** Is ip in rotation at the given time, after the first i attempts? */
  predicate InRotation(cfg: Config, h: seq<Event>, ip: string, i: nat, now: int)
    requires i <= |h|
    decreases i, 1
  {
    var r := LastReset(cfg, h, ip, i);
    r == -1 || h[r].signal == Success || now > h[r].tDegrade + 3600 * cfg.retryHours
  }

  /** The weak signals for ip, at indices from first up to i, that found it in rotation and are after the cutoff. */
  function Recent(cfg: Config, h: seq<Event>, ip: string, first: nat, i: nat, cutoff: int): set<nat>
    requires i <= |h|
    decreases i, 1
  {
    set j: nat | first <= j < i && WeakHit(cfg, h, ip, j) && h[j].tStrike > cutoff
  }

  /** The attempt at index j is a weak signal for ip that found it in rotation. */
  predicate WeakHit(cfg: Config, h: seq<Event>, ip: string, j: nat)
    requires j < |h|
    decreases j, 2
  {
    h[j].ip == ip && h[j].signal == Weak && InRotation(cfg, h, ip, j, h[j].tHealthy)
  }

  /**
   Does the attempt at index i degrade its address?  A strong signal does.  A weak one does when it finds the address
   in rotation and is at least the threshold-th such signal strictly inside the window since the last success or
   degrade.
   */
  predicate Degrades(cfg: Config, h: seq<Event>, i: nat)
    requires i < |h|
    decreases i, 2
  {
    var e := h[i];
    match e.signal
    case Strong => true
    case Weak =>
      && InRotation(cfg, h, e.ip, i, e.tHealthy)
      && (|| cfg.threshold <= 1
          || |Recent(cfg, h, e.ip, LastReset(cfg, h, e.ip, i) + 1, i, e.tStrike - WindowSeconds(cfg))| + 1
             >= cfg.threshold)
    case _ => false
  }

  // ---------------------------------------------------------------- facts about windows

  /** Times of the weak signals for ip, at indices from first up to i, that found it in rotation. */
  function WeakTimes(cfg: Config, h: seq<Event>, ip: string, first: nat, i: nat): seq<int>
    requires i <= |h|
    decreases i, 1
  {
    if i <= first then []
    else
      var e := h[i - 1];
      WeakTimes(cfg, h, ip, first, i - 1) +
      (if e.ip == ip && e.signal == Weak && InRotation(cfg, h, ip, i - 1, e.tHealthy) then [e.tStrike] else [])
  }

  function Those(p: nat -> bool, first: nat, i: nat): set<nat> {
    set j: nat | first <= j < i && p(j)
  }

  lemma ThoseStep(p: nat -> bool, first: nat, i: nat)
    requires first <= i
    ensures |Those(p, first, i + 1)| == |Those(p, first, i)| + if p(i) then 1 else 0
  {
    if p(i) {
      assert Those(p, first, i + 1) == Those(p, first, i) + {i};
    } else {
      assert Those(p, first, i + 1) == Those(p, first, i);
    }
  }

  lemma RecentAreThose(cfg: Config, h: seq<Event>, ip: string, first: nat, i: nat, cutoff: int, p: nat -> bool)
    requires i <= |h| && forall j: nat :: j < |h| ==> p(j) == (WeakHit(cfg, h, ip, j) && h[j].tStrike > cutoff)
    ensures Recent(cfg, h, ip, first, i, cutoff) == Those(p, first, i)
  {
    hide WeakHit;
  }

  /** One more attempt: one more recent signal, or none. */
  lemma RecentStep(cfg: Config, h: seq<Event>, ip: string, first: nat, i: nat, cutoff: int)
    requires first <= i < |h|
    ensures
      var before, after := Recent(cfg, h, ip, first, i, cutoff), Recent(cfg, h, ip, first, i + 1, cutoff);
      |after| == |before| + if WeakHit(cfg, h, ip, i) && h[i].tStrike > cutoff then 1 else 0
  {
    hide WeakHit, Recent;
    var p := (j: nat) => j < |h| && WeakHit(cfg, h, ip, j) && h[j].tStrike > cutoff;
    RecentAreThose(cfg, h, ip, first, i, cutoff, p);
    RecentAreThose(cfg, h, ip, first, i + 1, cutoff, p);
    ThoseStep(p, first, i);
  }

  lemma LiveStep(cfg: Config, h: seq<Event>, ip: string, first: nat, i: nat, cutoff: int)
    requires first <= i < |h|
    ensures
      |Live(WeakTimes(cfg, h, ip, first, i + 1), cutoff)| ==
      |Live(WeakTimes(cfg, h, ip, first, i), cutoff)| +
      if WeakHit(cfg, h, ip, i) && h[i].tStrike > cutoff then 1 else 0
  {
    hide InRotation;
    var times := WeakTimes(cfg, h, ip, first, i);
    LiveConcat(times, if WeakHit(cfg, h, ip, i) then [h[i].tStrike] else [], cutoff);
    assert [h[i].tStrike][..0] == [];
    assert Live([h[i].tStrike], cutoff) == if h[i].tStrike > cutoff then [h[i].tStrike] else [];
  }

  lemma {:induction false} RecentIsLive(cfg: Config, h: seq<Event>, ip: string, first: nat, i: nat, cutoff: int)
    requires i <= |h|
    ensures |Recent(cfg, h, ip, first, i, cutoff)| == |Live(WeakTimes(cfg, h, ip, first, i), cutoff)|
  {
    if i <= first {
      assert Recent(cfg, h, ip, first, i, cutoff) == {};
    } else {
      hide WeakHit, Recent, WeakTimes, Live;
      RecentIsLive(cfg, h, ip, first, i - 1, cutoff);
      RecentStep(cfg, h, ip, first, i - 1, cutoff);
      LiveStep(cfg, h, ip, first, i - 1, cutoff);
    }
  }

  lemma {:induction false} LiveConcat(a: seq<int>, b: seq<int>, cutoff: int)
    ensures Live(a + b, cutoff) == Live(a, cutoff) + Live(b, cutoff)
  {
    if b == [] {
      assert a + b == a;
    } else {
      var n := |b| - 1;
      assert (a + b)[..|a| + n] == a + b[..n];
      LiveConcat(a, b[..n], cutoff);
    }
  }

  lemma {:induction false} LiveLive(a: seq<int>, c: int, d: int)
    requires c <= d
    ensures Live(Live(a, c), d) == Live(a, d)
  {
    if a != [] {
      var n := |a| - 1;
      LiveLive(a[..n], c, d);
      LiveConcat(Live(a[..n], c), if a[n] > c then [a[n]] else [], d);
      assert Live([a[n]], d) == if a[n] > d then [a[n]] else [];
    }
  }

  lemma {:induction false} NoneLive(a: seq<int>, c: int)
    requires forall i :: 0 <= i < |a| ==> a[i] <= c
    ensures Live(a, c) == []
  {
    if a != [] { NoneLive(a[..|a| - 1], c); }
  }

  /** Two strike lists that agree inside a window agree inside every later one. */
  lemma AgreeLater(a: seq<int>, b: seq<int>, c: int, d: int)
    requires Live(a, c) == Live(b, c) && c <= d
    ensures Live(a, d) == Live(b, d)
  {
    LiveLive(a, c, d);
    LiveLive(b, c, d);
  }

  predicate Ascending(a: seq<int>, now: int) {
    && (forall i, j :: 0 <= i < j < |a| ==> a[i] <= a[j])
    && (forall i :: 0 <= i < |a| ==> a[i] <= now)
  }

  lemma {:induction false} LiveAscending(a: seq<int>, c: int, now: int)
    requires Ascending(a, now)
    ensures Ascending(Live(a, c), now)
  {
    if a != [] {
      var n := |a| - 1;
      LiveAscending(a[..n], c, a[n]);
    }
  }

  // ---------------------------------------------------------------- the simulation

  /** A live degraded entry is the one the history gives; a missing one is missing or out of date in the history. */
  predicate EntryMatches(cfg: Config, h: seq<Event>, k: nat, s: State, ip: string, now: int)
    requires k <= |h|
  {
    var r := LastReset(cfg, h, ip, k);
    if ip in s.degraded then
      r >= 0 && h[r].signal != Success && s.degraded[ip].retryAfter == h[r].tDegrade + 3600 * cfg.retryHours
    else InRotation(cfg, h, ip, k, now)
  }

  predicate StrikesMatch(cfg: Config, h: seq<Event>, k: nat, s: State, ip: string, now: int)
    requires k <= |h|
  {
    var stored := StrikesOf(s, ip);
    && Ascending(stored, now)
    && (cfg.threshold > 1 ==>
          Live(stored, now - Window(cfg)) ==
          Live(WeakTimes(cfg, h, ip, LastReset(cfg, h, ip, k) + 1, k), now - Window(cfg)))
  }

  /** The state agrees, about ip and from now on, with the first k attempts of the history. */
  predicate Matches(cfg: Config, h: seq<Event>, k: nat, s: State, ip: string, now: int)
    requires k <= |h|
  {
    EntryMatches(cfg, h, k, s, ip, now) && StrikesMatch(cfg, h, k, s, ip, now)
  }

  /** How one more attempt changes what the history says about an address. */
  lemma HistoryStep(cfg: Config, h: seq<Event>, k: nat, ip: string)
    requires k < |h|
    ensures h[k].ip == ip && Resets(cfg, h, k) ==>
              LastReset(cfg, h, ip, k + 1) == k && WeakTimes(cfg, h, ip, k + 1, k + 1) == []
    ensures !(h[k].ip == ip && Resets(cfg, h, k)) ==>
              var first := LastReset(cfg, h, ip, k) + 1;
              && LastReset(cfg, h, ip, k + 1) == first - 1
              && WeakTimes(cfg, h, ip, first, k + 1) ==
                 if h[k].ip == ip && h[k].signal == Weak && InRotation(cfg, h, ip, k, h[k].tHealthy)
                 then WeakTimes(cfg, h, ip, first, k) + [h[k].tStrike]
                 else WeakTimes(cfg, h, ip, first, k)
  {
  }

  lemma MatchesLater(cfg: Config, h: seq<Event>, k: nat, s: State, ip: string, now: int, later: int)
    requires k <= |h| && Matches(cfg, h, k, s, ip, now) && now <= later
    ensures Matches(cfg, h, k, s, ip, later)
  {
    hide LastReset, WeakTimes, Live;
    if cfg.threshold > 1 {
      AgreeLater(StrikesOf(s, ip), WeakTimes(cfg, h, ip, LastReset(cfg, h, ip, k) + 1, k),
                 now - Window(cfg), later - Window(cfg));
    }
  }

  lemma CleanupKeepsMatch(cfg: Config, h: seq<Event>, k: nat, s: State, c: SweepClock, ip: string)
    requires k <= |h| && cfg.enabled && WellTimed(Clean(c)) && Matches(cfg, h, k, s, ip, c.t0)
    ensures Matches(cfg, h, k, Sweep(cfg, s, c), ip, c.t2)
  {
    hide LastReset, WeakTimes, Live;
    MatchesLater(cfg, h, k, s, ip, c.t0, c.t2);
    var stored := StrikesOf(s, ip);
    if ip in s.strikes && StaleStrikes(cfg, stored, c.t2) {
      NoneLive(stored, c.t2 - Window(cfg));
      NoneLive([], c.t2 - Window(cfg));
    }
  }

  lemma OtherAttemptKeepsMatch(cfg: Config, h: seq<Event>, k: nat, s: State, ip: string)
    requires k < |h| && cfg.enabled && WellTimed(Attempt(h[k])) && h[k].ip != ip
    requires Matches(cfg, h, k, s, ip, h[k].tHealthy)
    ensures Matches(cfg, h, k + 1, Step(cfg, s, h[k]).0, ip, h[k].tDegrade)
  {
    hide LastReset, WeakTimes, Live, Resets;
    HistoryStep(cfg, h, k, ip);
    MatchesLater(cfg, h, k, s, ip, h[k].tHealthy, h[k].tDegrade);
    var s' := Step(cfg, s, h[k]).0;
    assert StrikesOf(s', ip) == StrikesOf(s, ip);
  }

  /** A weak signal that does not reach the threshold is remembered by both sides. */
  lemma WeakRemembered(cfg: Config, h: seq<Event>, k: nat, s: State)
    requires k < |h| && h[k].signal == Weak && WellTimed(Attempt(h[k])) && cfg.threshold > 1
    requires Matches(cfg, h, k, s, h[k].ip, h[k].tStrike)
    requires InRotation(cfg, h, h[k].ip, k, h[k].tHealthy) && !Degrades(cfg, h, k)
    ensures Matches(cfg, h, k + 1, Strike(cfg, s, h[k].ip, h[k].tStrike).1, h[k].ip, h[k].tDegrade)
  {
    hide LastReset, WeakTimes, Live, Recent;
    HistoryStep(cfg, h, k, h[k].ip);
    var e := h[k];
    RecentIsLive(cfg, h, e.ip, LastReset(cfg, h, e.ip, k) + 1, k, e.tStrike - Window(cfg));
    var past := WeakTimes(cfg, h, e.ip, LastReset(cfg, h, e.ip, k) + 1, k);
    var cut, end := e.tStrike - Window(cfg), e.tDegrade - Window(cfg);
    var live := Live(StrikesOf(s, e.ip), cut);
    LiveAscending(StrikesOf(s, e.ip), cut, e.tStrike);
    assert StrikesOf(Strike(cfg, s, e.ip, e.tStrike).1, e.ip) == live + [e.tStrike];
    calc {
      Live(live + [e.tStrike], end);
      { LiveConcat(live, [e.tStrike], end); }
      Live(live, end) + Live([e.tStrike], end);
      { LiveLive(past, cut, end); }
      Live(past, end) + Live([e.tStrike], end);
      { LiveConcat(past, [e.tStrike], end); }
      Live(past + [e.tStrike], end);
    }
  }

  /** An attempt for an address: the decision is the history's, and the states still match. */
  lemma OwnAttempt(cfg: Config, h: seq<Event>, k: nat, s: State)
    requires k < |h| && cfg.enabled && h[k].ip != "" && WellTimed(Attempt(h[k]))
    requires Matches(cfg, h, k, s, h[k].ip, h[k].tHealthy)
    ensures Step(cfg, s, h[k]).1 == Degrades(cfg, h, k)
    ensures Matches(cfg, h, k + 1, Step(cfg, s, h[k]).0, h[k].ip, h[k].tDegrade)
  {
    hide LastReset, WeakTimes, Live, Recent;
    HistoryStep(cfg, h, k, h[k].ip);
    var e := h[k];
    var s' := Step(cfg, s, e).0;
    RecentIsLive(cfg, h, e.ip, LastReset(cfg, h, e.ip, k) + 1, k, e.tStrike - Window(cfg));
    MatchesLater(cfg, h, k, s, e.ip, e.tHealthy, e.tStrike);
    MatchesLater(cfg, h, k, s, e.ip, e.tHealthy, e.tDegrade);
    assert Healthy(cfg, s, e.ip, e.tHealthy) == InRotation(cfg, h, e.ip, k, e.tHealthy);
    assert Step(cfg, s, e).1 == Degrades(cfg, h, k);
    if e.signal == Weak && InRotation(cfg, h, e.ip, k, e.tHealthy) && !Degrades(cfg, h, k) {
      WeakRemembered(cfg, h, k, s);
    } else if Resets(cfg, h, k) && cfg.threshold > 1 {
      assert StrikesOf(s', e.ip) == [];
      NoneLive([], 0);
    }
  }

  lemma StartMatches(cfg: Config, h: seq<Event>, ip: string, now: int)
    ensures Matches(cfg, h, 0, State(map[], map[]), ip, now)
  {
  }

  lemma {:induction false} StateMatches(cfg: Config, run: seq<Action>, n: nat, ip: string, now: int)
    requires cfg.enabled && ip != "" && Sequential(run) && n <= |run|
    requires forall j :: 0 <= j < n ==> Ends(run[j]) <= now
    ensures |Attempts(run, n)| <= |Attempts(run, |run|)|
    ensures Matches(cfg, Attempts(run, |run|), |Attempts(run, n)|, StateAfter(cfg, run, n), ip, now)
  {
    hide Matches, Step, Sweep;
    var h := Attempts(run, |run|);
    AttemptsPrefix(run, n, |run|);
    if n == 0 {
      StartMatches(cfg, h, ip, now);
    } else {
      var a := run[n - 1];
      var s, k := StateAfter(cfg, run, n - 1), |Attempts(run, n - 1)|;
      StateMatches(cfg, run, n - 1, ip, Begins(a));
      match a {
        case Clean(c) => CleanupKeepsMatch(cfg, h, k, s, c, ip);
        case Attempt(e) =>
          AttemptAt(run, n - 1);
          if e.ip == ip { OwnAttempt(cfg, h, k, s); } else { OtherAttemptKeepsMatch(cfg, h, k, s, ip); }
      }
      MatchesLater(cfg, h, |Attempts(run, n)|, StateAfter(cfg, run, n), ip, Ends(a), now);
    }
  }

  // ---------------------------------------------------------------- main results

  /** Every degrade decision of a sequential run is the one the history of attempts gives. */
  lemma DecisionsFollowHistory(cfg: Config, run: seq<Action>, n: nat)
    requires cfg.enabled && Sequential(run) && n < |run| && run[n].Attempt? && run[n].e.ip != ""
    ensures |Attempts(run, n)| < |Attempts(run, |run|)|
    ensures Step(cfg, StateAfter(cfg, run, n), run[n].e).1 <==>
            Degrades(cfg, Attempts(run, |run|), |Attempts(run, n)|)
  {
    hide Matches, Step, Degrades, Attempts;
    AttemptAt(run, n);
    StateMatches(cfg, run, n, run[n].e.ip, Begins(run[n]));
    OwnAttempt(cfg, Attempts(run, |run|), |Attempts(run, n)|, StateAfter(cfg, run, n));
  }

  /** Every health answer after a sequential run is the one the history of attempts gives. */
  lemma HealthFollowsHistory(cfg: Config, run: seq<Action>, ip: string, now: int)
    requires cfg.enabled && Sequential(run) && ip != "" && forall j :: 0 <= j < |run| ==> Ends(run[j]) <= now
    ensures Healthy(cfg, StateAfter(cfg, run, |run|), ip, now) <==>
            InRotation(cfg, Attempts(run, |run|), ip, |Attempts(run, |run|)|, now)
  {
    StateMatches(cfg, run, |run|, ip, now);
  }

  /**
   Two sequential runs with the same attempts, and cleanups inserted wherever and whenever, take the same degrade
   decision at each attempt.
   */
  lemma CleanupKeepsDecisions(cfg: Config, run: seq<Action>, run': seq<Action>, n: nat, n': nat)
    requires cfg.enabled && Sequential(run) && Sequential(run')
    requires Attempts(run, |run|) == Attempts(run', |run'|)
    requires n < |run| && n' < |run'| && run[n].Attempt? && run'[n'].Attempt? && run[n].e.ip != ""
    requires |Attempts(run, n)| == |Attempts(run', n')|
    ensures run[n].e == run'[n'].e
    ensures Step(cfg, StateAfter(cfg, run, n), run[n].e).1 == Step(cfg, StateAfter(cfg, run', n'), run'[n'].e).1
  {
    hide Step, Degrades, StateAfter, Attempts;
    AttemptAt(run, n);
    AttemptAt(run', n');
    DecisionsFollowHistory(cfg, run, n);
    DecisionsFollowHistory(cfg, run', n');
  }

  /** And they give the same health answers afterwards. */
  lemma CleanupKeepsHealth(cfg: Config, run: seq<Action>, run': seq<Action>, ip: string, now: int)
    requires cfg.enabled && Sequential(run) && Sequential(run') && ip != ""
    requires Attempts(run, |run|) == Attempts(run', |run'|)
    requires forall j :: 0 <= j < |run| ==> Ends(run[j]) <= now
    requires forall j :: 0 <= j < |run'| ==> Ends(run'[j]) <= now
    ensures Healthy(cfg, StateAfter(cfg, run, |run|), ip, now) == Healthy(cfg, StateAfter(cfg, run', |run'|), ip, now)
  {
    HealthFollowsHistory(cfg, run, ip, now);
    HealthFollowsHistory(cfg, run', ip, now);
  }
}
