/** The per-domain token bucket.  Times are seconds as reals; the floating point of the code is read as real numbers. */
module DomainLimiter {
  import opened Common

  datatype Config = Config(perDomainBurst: int, intervalSeconds: int)

  datatype Bucket = Bucket(tokens: real, lastUpdate: real)

  function Burst(cfg: Config): (b: real)
    ensures b >= 1.0
  {
    if cfg.perDomainBurst <= 0 then 1.0 else cfg.perDomainBurst as real
  }

  /** Tokens per second. */
  function Rate(cfg: Config): (r: real)
    ensures r > 0.0
    ensures cfg.intervalSeconds > 0 ==> r * cfg.intervalSeconds as real == 1.0
  {
    if cfg.intervalSeconds > 0 then 1.0 / cfg.intervalSeconds as real else 1000000.0
  }

  /** Tokens that accrue over a length of time. */
  function Earned(cfg: Config, seconds: real): real {
    seconds * Rate(cfg)
  }

  const IDLE_LIMIT: real := 600.0

  function Refilled(cfg: Config, b: Bucket, now: real): real {
    var t := b.tokens + Earned(cfg, now - b.lastUpdate);
    if t > Burst(cfg) then Burst(cfg) else t
  }

  /** One call: admitted or not, and the bucket it leaves. */
  function Take(cfg: Config, b: Bucket, now: real): (bool, Bucket) {
    var t := Refilled(cfg, b, now);
    if t >= 1.0 then (true, Bucket(t - 1.0, now)) else (false, Bucket(t, now))
  }

  function Opened(cfg: Config, s: Option<Bucket>, created: real): Bucket {
    if s.Some? then s.value else Bucket(Burst(cfg), created)
  }

  predicate Idle(b: Bucket, now: real) {
    b.lastUpdate < now - IDLE_LIMIT
  }

  class Limiters {
    var buckets: map<string, Bucket>

    constructor ()
      ensures buckets == map[]
    {
      buckets := map[];
    }

    function Of(domain: string): Option<Bucket>
      reads this
    {
      if domain in buckets then Some(buckets[domain]) else None
    }

    /** created is the reading for a new limiter, now the one taken under its lock. */
    method WaitForDomainRateLimit(cfg: Config, domain: string, created: real, now: real) returns (admitted: bool)
      modifies this
      ensures
        var (ok, b) := Take(cfg, Opened(cfg, old(Of(domain)), created), now);
        admitted == ok && buckets == old(buckets)[domain := b]
    {
      hide Earned;
      if domain !in buckets {
        buckets := buckets[domain := Bucket(Burst(cfg), created)];
      }
      var limiter := buckets[domain];
      var elapsed := now - limiter.lastUpdate;
      var tokens := limiter.tokens + Earned(cfg, elapsed);
      if tokens > Burst(cfg) {
        tokens := Burst(cfg);
      }
      if tokens >= 1.0 {
        buckets := buckets[domain := Bucket(tokens - 1.0, now)];
        return true;
      }
      buckets := buckets[domain := Bucket(tokens, now)];
      return false;
    }

    method CleanupDomainLimiters(now: real)
      modifies this
      ensures buckets == Swept(old(buckets), now, {})
      ensures forall d :: d in buckets <==> d in old(buckets) && old(buckets)[d].lastUpdate >= now - 600.0
      ensures forall d :: d in buckets ==> d in old(buckets) && buckets[d] == old(buckets)[d]
    {
      var todo := buckets.Keys;
      ghost var was := buckets;
      while todo != {}
        invariant todo <= was.Keys
        invariant buckets == Swept(was, now, todo)
        decreases |todo|
      {
        var d :| d in todo;
        if Idle(buckets[d], now) {
          buckets := buckets - {d};
        }
        todo := todo - {d};
      }
    }
  }

  function Swept(m: map<string, Bucket>, now: real, todo: set<string>): map<string, Bucket> {
    map d | d in m && (d in todo || !Idle(m[d], now)) :: m[d]
  }

  // ---------------------------------------------------------------- runs of one domain, one event at a time

  datatype Event = Call(at: real) | Clean(at: real)

  function Step(cfg: Config, s: Option<Bucket>, e: Event): Option<Bucket> {
    match e
    case Call(at) => Some(Take(cfg, Opened(cfg, s, at), at).1)
    case Clean(at) => if s.Some? && Idle(s.value, at) then None else s
  }

  function After(cfg: Config, s: Option<Bucket>, es: seq<Event>): Option<Bucket>
    decreases es
  {
    if es == [] then s else After(cfg, Step(cfg, s, es[0]), es[1..])
  }

  /** The answers to the calls of a run, in order. */
  function Answers(cfg: Config, s: Option<Bucket>, es: seq<Event>): seq<bool>
    decreases es
  {
    if es == [] then []
    else
      var e := es[0];
      (if e.Call? then [Take(cfg, Opened(cfg, s, e.at), e.at).0] else []) + Answers(cfg, Step(cfg, s, e), es[1..])
  }

  function Admitted(answers: seq<bool>): nat {
    if answers == [] then 0 else (if answers[0] then 1 else 0) + Admitted(answers[1..])
  }

  predicate From(es: seq<Event>, t: real) {
    && (forall i :: 0 <= i < |es| ==> t <= es[i].at)
    && (forall i, j :: 0 <= i < j < |es| ==> es[i].at <= es[j].at)
  }

  /** A bucket that a run can leave: between empty and full, last updated no later than t. */
  predicate Sound(cfg: Config, s: Option<Bucket>, t: real) {
    s.Some? ==> 0.0 <= s.value.tokens <= Burst(cfg) && s.value.lastUpdate <= t
  }

  lemma EarnedGrows(cfg: Config, a: real, b: real)
    requires a <= b
    ensures Earned(cfg, a) <= Earned(cfg, b)
  {
  }

  lemma EarnedAdds(cfg: Config, a: real, b: real)
    ensures Earned(cfg, a + b) == Earned(cfg, a) + Earned(cfg, b) && Earned(cfg, 0.0) == 0.0
  {
  }

  lemma RefillBounds(cfg: Config, s: Option<Bucket>, now: real)
    requires Sound(cfg, s, now)
    ensures 0.0 <= Refilled(cfg, Opened(cfg, s, now), now) <= Burst(cfg)
  {
    hide Earned;
    EarnedGrows(cfg, 0.0, now - Opened(cfg, s, now).lastUpdate);
    EarnedAdds(cfg, 0.0, 0.0);
  }

  lemma StepSound(cfg: Config, s: Option<Bucket>, e: Event, t: real)
    requires Sound(cfg, s, t) && t <= e.at
    ensures Sound(cfg, Step(cfg, s, e), e.at)
  {
    hide Refilled;
    RefillBounds(cfg, s, e.at);
  }

  lemma {:induction false} AfterSound(cfg: Config, s: Option<Bucket>, es: seq<Event>, t: real, end: real)
    requires Sound(cfg, s, t) && From(es, t) && t <= end && forall i :: 0 <= i < |es| ==> es[i].at <= end
    ensures Sound(cfg, After(cfg, s, es), end)
    decreases es
  {
    hide Step;
    if es != [] {
      StepSound(cfg, s, es[0], t);
      AfterSound(cfg, Step(cfg, s, es[0]), es[1..], es[0].at, end);
    }
  }

  /** The tokens at hand at the first call pay for the calls from then on, with the refill until the last one. */
  lemma {:induction false} PaidByTokens(cfg: Config, s: Option<Bucket>, es: seq<Event>, end: real)
    requires es != [] && (forall i :: 0 <= i < |es| ==> es[i].Call? && es[i].at <= end)
    requires From(es, es[0].at) && Sound(cfg, s, es[0].at)
    ensures Admitted(Answers(cfg, s, es)) as real <=
            Refilled(cfg, Opened(cfg, s, es[0].at), es[0].at) + Earned(cfg, end - es[0].at)
    decreases es
  {
    hide Earned, Refilled;
    var t, rest := es[0].at, es[1..];
    var (ok, b) := Take(cfg, Opened(cfg, s, t), t);
    StepSound(cfg, s, es[0], t);
    RefillBounds(cfg, s, t);
    assert Answers(cfg, s, es) == [ok] + Answers(cfg, Some(b), rest);
    if rest == [] {
      EarnedGrows(cfg, 0.0, end - t);
      EarnedAdds(cfg, 0.0, 0.0);
    } else {
      var u := rest[0].at;
      PaidByTokens(cfg, Some(b), rest, end);
      EarnedAdds(cfg, end - u, u - t);
      assert end - t == end - u + (u - t);
      RefilledAtMost(cfg, b, u);
    }
  }

  lemma RefilledAtMost(cfg: Config, b: Bucket, now: real)
    ensures Refilled(cfg, b, now) <= b.tokens + Earned(cfg, now - b.lastUpdate)
  {
  }

  lemma CallsBound(cfg: Config, s: Option<Bucket>, calls: seq<Event>, from: real, end: real)
    requires from <= end && From(calls, from) && Sound(cfg, s, from)
    requires forall i :: 0 <= i < |calls| ==> calls[i].Call? && calls[i].at <= end
    ensures Admitted(Answers(cfg, s, calls)) as real <= Burst(cfg) + Earned(cfg, end - from)
  {
    hide Earned, Refilled, Answers;
    if calls == [] {
      NoAnswers(cfg, s);
      EarnedGrows(cfg, 0.0, end - from);
      EarnedAdds(cfg, 0.0, 0.0);
    } else {
      RefillBounds(cfg, s, calls[0].at);
      PaidByTokens(cfg, s, calls, end);
      EarnedGrows(cfg, end - calls[0].at, end - from);
    }
  }

  lemma NoAnswers(cfg: Config, s: Option<Bucket>)
    ensures Admitted(Answers(cfg, s, [])) == 0
  {
  }

  /**
   After any run, and in any length of time, the admitted calls are at most the burst plus that length times the refill
   rate (one token per refill interval).
   */
  lemma AdmissionBound(cfg: Config, before: seq<Event>, calls: seq<Event>, start: real, from: real, end: real)
    requires start <= from <= end && From(before, start) && From(calls, from)
    requires forall i :: 0 <= i < |before| ==> before[i].at <= from
    requires forall i :: 0 <= i < |calls| ==> calls[i].Call? && calls[i].at <= end
    ensures Admitted(Answers(cfg, After(cfg, None, before), calls)) as real <= Burst(cfg) + Earned(cfg, end - from)
  {
    hide Earned, Answers, After;
    AfterSound(cfg, None, before, start, from);
    CallsBound(cfg, After(cfg, None, before), calls, from, end);
  }

  lemma IntervalEarnsOne(cfg: Config)
    requires cfg.intervalSeconds > 0
    ensures Earned(cfg, cfg.intervalSeconds as real) == 1.0
  {
  }

  /** A call made at least one refill interval after the call before it is admitted. */
  lemma SpacedCallsAreAdmitted(cfg: Config, s: Option<Bucket>, previous: real, now: real)
    requires cfg.intervalSeconds > 0 && Sound(cfg, s, previous) && now - previous >= cfg.intervalSeconds as real
    ensures Take(cfg, Step(cfg, s, Call(previous)).value, now).0
  {
    hide Earned;
    StepSound(cfg, s, Call(previous), previous);
    EarnedGrows(cfg, cfg.intervalSeconds as real, now - previous);
    IntervalEarnsOne(cfg);
  }

  // ---------------------------------------------------------------- dropping idle limiters

  function Calls(es: seq<Event>): seq<Event> {
    if es == [] then [] else (if es[0].Call? then [es[0]] else []) + Calls(es[1..])
  }

  /** The idle limit is long enough to fill a bucket; for a positive interval, burst times interval is at most 600 s. */
  predicate FillsWhileIdle(cfg: Config) {
    Burst(cfg) <= Earned(cfg, IDLE_LIMIT)
  }

  lemma FillsWhileIdleMeans(cfg: Config)
    requires cfg.intervalSeconds > 0
    ensures FillsWhileIdle(cfg) <==> Burst(cfg) * cfg.intervalSeconds as real <= 600.0
  {
    var n := cfg.intervalSeconds as real;
    assert Earned(cfg, IDLE_LIMIT) * n == IDLE_LIMIT * (Rate(cfg) * n);
    Scaled(Burst(cfg), Earned(cfg, IDLE_LIMIT), n);
  }

  lemma Scaled(a: real, b: real, n: real)
    requires n > 0.0
    ensures a <= b <==> a * n <= b * n
  {
  }

  /** A dropped limiter stands for one that is full again. */
  predicate Same(cfg: Config, dropped: Option<Bucket>, kept: Option<Bucket>, t: real) {
    && Sound(cfg, kept, t)
    && (dropped == kept ||
        (dropped.None? && kept.Some? && Earned(cfg, t - kept.value.lastUpdate) >= Burst(cfg)))
  }

  lemma SameCall(cfg: Config, dropped: Option<Bucket>, kept: Option<Bucket>, t: real, now: real)
    requires Same(cfg, dropped, kept, t) && t <= now
    ensures Take(cfg, Opened(cfg, dropped, now), now) == Take(cfg, Opened(cfg, kept, now), now)
  {
    hide Earned;
    if dropped != kept { EarnedGrows(cfg, t - kept.value.lastUpdate, now - kept.value.lastUpdate); }
    EarnedAdds(cfg, 0.0, 0.0);
  }

  lemma SameClean(cfg: Config, dropped: Option<Bucket>, kept: Option<Bucket>, t: real, now: real)
    requires FillsWhileIdle(cfg) && Same(cfg, dropped, kept, t) && t <= now
    ensures Same(cfg, Step(cfg, dropped, Clean(now)), kept, now)
  {
    hide Earned;
    if kept.Some? { EarnedGrows(cfg, t - kept.value.lastUpdate, now - kept.value.lastUpdate); }
    if dropped.Some? && Idle(dropped.value, now) {
      EarnedGrows(cfg, IDLE_LIMIT, now - kept.value.lastUpdate);
    }
  }

  lemma {:induction false} DroppingKeepsAnswers(
      cfg: Config, dropped: Option<Bucket>, kept: Option<Bucket>, es: seq<Event>, t: real)
    requires FillsWhileIdle(cfg) && From(es, t) && Same(cfg, dropped, kept, t)
    ensures Answers(cfg, dropped, es) == Answers(cfg, kept, Calls(es))
    decreases es
  {
    hide Take, Same, FillsWhileIdle;
    if es != [] {
      var e := es[0];
      if e.Call? {
        SameCall(cfg, dropped, kept, t, e.at);
        SameAfterCall(cfg, dropped, kept, e.at, t);
        DroppingKeepsAnswers(cfg, Step(cfg, dropped, e), Step(cfg, kept, e), es[1..], e.at);
        assert Calls(es)[1..] == Calls(es[1..]);
      } else {
        SameClean(cfg, dropped, kept, t, e.at);
        DroppingKeepsAnswers(cfg, Step(cfg, dropped, e), kept, es[1..], e.at);
        assert Calls(es) == Calls(es[1..]);
      }
    }
  }

  lemma SameAfterCall(cfg: Config, dropped: Option<Bucket>, kept: Option<Bucket>, now: real, t: real)
    requires Same(cfg, dropped, kept, t) && t <= now
    ensures Same(cfg, Step(cfg, dropped, Call(now)), Step(cfg, kept, Call(now)), now)
  {
    hide Take;
    SameCall(cfg, dropped, kept, t, now);
    StepSound(cfg, kept, Call(now), t);
  }

  lemma {:induction false} CallsInOrder(es: seq<Event>, from: real, end: real)
    requires From(es, from) && forall i :: 0 <= i < |es| ==> es[i].at <= end
    ensures From(Calls(es), from) && forall i :: 0 <= i < |Calls(es)| ==> Calls(es)[i].Call? && Calls(es)[i].at <= end
  {
    if es != [] {
      CallsInOrder(es[1..], es[0].at, end);
    }
  }

  /**
   The same bound when limiters are dropped between the calls of the stretch, if the idle limit fills a bucket.  Drops
   that race with calls are the subject of DomainLimiterRaces.
   */
  lemma AdmissionBoundWithCleanups(
      cfg: Config, before: seq<Event>, stretch: seq<Event>, start: real, from: real, end: real)
    requires FillsWhileIdle(cfg) && start <= from <= end && From(before, start) && From(stretch, from)
    requires forall i :: 0 <= i < |before| ==> before[i].at <= from
    requires forall i :: 0 <= i < |stretch| ==> stretch[i].at <= end
    ensures Admitted(Answers(cfg, After(cfg, None, before), stretch)) as real <= Burst(cfg) + Earned(cfg, end - from)
  {
    hide Earned, Answers, After, Calls, FillsWhileIdle;
    var s := After(cfg, None, before);
    AfterSound(cfg, None, before, start, from);
    DroppingKeepsAnswers(cfg, s, s, stretch, from);
    CallsInOrder(stretch, from, end);
    CallsBound(cfg, s, Calls(stretch), from, end);
  }

  // ---------------------------------------------------------------- and it must be that long

  function Repeat(at: real, k: nat): (es: seq<Event>)
    ensures |es| == k && forall i :: 0 <= i < k ==> es[i] == Call(at)
  {
    seq(k, i => Call(at))
  }

  lemma {:induction false} AnswersConcat(cfg: Config, s: Option<Bucket>, a: seq<Event>, b: seq<Event>)
    ensures Answers(cfg, s, a + b) == Answers(cfg, s, a) + Answers(cfg, After(cfg, s, a), b)
    decreases a
  {
    hide Take, Step;
    if a == [] {
      assert a + b == b;
    } else {
      assert (a + b)[1..] == a[1..] + b;
      AnswersConcat(cfg, Step(cfg, s, a[0]), a[1..], b);
    }
  }

  lemma {:induction false} AdmittedConcat(a: seq<bool>, b: seq<bool>)
    ensures Admitted(a + b) == Admitted(a) + Admitted(b)
  {
    if a == [] {
      assert a + b == b;
    } else {
      assert (a + b)[1..] == a[1..] + b;
      AdmittedConcat(a[1..], b);
    }
  }

  /** A bucket with k tokens admits k calls at once and is left with the rest. */
  lemma {:induction false} Drains(cfg: Config, s: Option<Bucket>, t: real, k: nat)
    requires k as real <= Refilled(cfg, Opened(cfg, s, t), t) <= Burst(cfg)
    ensures Admitted(Answers(cfg, s, Repeat(t, k))) == k
    ensures k > 0 ==> After(cfg, s, Repeat(t, k)) == Some(Bucket(Refilled(cfg, Opened(cfg, s, t), t) - k as real, t))
    decreases k
  {
    hide Earned;
    if k > 0 {
      var b := Take(cfg, Opened(cfg, s, t), t).1;
      EarnedAdds(cfg, 0.0, 0.0);
      assert Repeat(t, k)[1..] == Repeat(t, k - 1);
      Drains(cfg, Some(b), t, k - 1);
      if k == 1 { assert After(cfg, Some(b), Repeat(t, 0)) == Some(b); }
    }
  }

  function WholeBurst(cfg: Config): (k: nat)
    ensures k > 0 && k as real == Burst(cfg)
  {
    if cfg.perDomainBurst <= 0 then 1 else cfg.perDomainBurst
  }

  /** The burst is the configured one, or one; without an interval, tokens come a million to the second. */
  lemma SettingsMean(cfg: Config)
    ensures Burst(cfg) == if cfg.perDomainBurst >= 1 then cfg.perDomainBurst as real else 1.0
    ensures cfg.intervalSeconds <= 0 ==> Rate(cfg) == 1000000.0
  {
  }

  /** A new domain is admitted as many calls at once as the burst says, and the next is refused. */
  lemma BurstThenRefused(cfg: Config, t: real)
    ensures
      var k := if cfg.perDomainBurst >= 1 then cfg.perDomainBurst else 1;
      && Admitted(Answers(cfg, None, Repeat(t, k))) == k
      && !Take(cfg, Opened(cfg, After(cfg, None, Repeat(t, k)), t), t).0
  {
    hide Earned, Answers, After, Repeat;
    EarnedAdds(cfg, 0.0, 0.0);
    SettingsMean(cfg);
    Drains(cfg, None, t, if cfg.perDomainBurst >= 1 then cfg.perDomainBurst else 1);
  }

  /** Just past the idle limit, when the bucket is not full yet. */
  function JustPast(cfg: Config): real {
    IDLE_LIMIT + (Burst(cfg) - Earned(cfg, IDLE_LIMIT)) / (2.0 * Rate(cfg))
  }

  lemma NotYetFull(cfg: Config)
    requires !FillsWhileIdle(cfg)
    ensures JustPast(cfg) > IDLE_LIMIT && Earned(cfg, JustPast(cfg)) < Burst(cfg)
  {
    var gap := Burst(cfg) - Earned(cfg, IDLE_LIMIT);
    var extra := gap / (2.0 * Rate(cfg));
    assert extra * (2.0 * Rate(cfg)) == gap;
    assert extra > 0.0;
    assert Earned(cfg, extra) * 2.0 == gap;
    EarnedAdds(cfg, IDLE_LIMIT, extra);
  }

  /** A burst, a cleanup just past the idle limit, and another burst. */
  function Trial(cfg: Config): seq<Event> {
    var k := WholeBurst(cfg);
    Repeat(0.0, k) + ([Clean(JustPast(cfg))] + Repeat(JustPast(cfg), k))
  }

  lemma {:induction false} CallsConcat(a: seq<Event>, b: seq<Event>)
    ensures Calls(a + b) == Calls(a) + Calls(b)
  {
    if a == [] {
      assert a + b == b;
    } else {
      var head := if a[0].Call? then [a[0]] else [];
      assert (a + b)[1..] == a[1..] + b;
      CallsConcat(a[1..], b);
      assert head + (Calls(a[1..]) + Calls(b)) == head + Calls(a[1..]) + Calls(b);
    }
  }

  lemma {:induction false} CallsOfRepeat(t: real, k: nat)
    ensures Calls(Repeat(t, k)) == Repeat(t, k)
  {
    if k > 0 {
      assert Repeat(t, k)[1..] == Repeat(t, k - 1);
      CallsOfRepeat(t, k - 1);
    }
  }

  lemma DroppingShows(cfg: Config)
    requires !FillsWhileIdle(cfg)
    ensures Answers(cfg, None, Trial(cfg)) != Answers(cfg, None, Calls(Trial(cfg)))
  {
    hide Earned, Answers, After, Calls, JustPast, Repeat;
    var k, t := WholeBurst(cfg), JustPast(cfg);
    var first, clean, second := Repeat(0.0, k), [Clean(t)], Repeat(t, k);
    NotYetFull(cfg);
    EarnedAdds(cfg, 0.0, 0.0);
    Drains(cfg, None, 0.0, k);
    var empty := Some(Bucket(0.0, 0.0));
    assert After(cfg, None, first) == empty;

    // with the cleanup: a full bucket again
    AnswersConcat(cfg, None, first, clean + second);
    CleanedBurst(cfg, empty, t, second);
    Drains(cfg, None, t, k);
    AdmittedConcat(Answers(cfg, None, first), Answers(cfg, None, second));

    // without it: fewer tokens than calls
    CallsConcat(first, clean + second);
    CallsOfRepeat(0.0, k);
    CleanIsNoCall(t, second);
    CallsOfRepeat(t, k);
    AnswersConcat(cfg, None, first, second);
    PaidByTokens(cfg, empty, second, t);
    AdmittedConcat(Answers(cfg, None, first), Answers(cfg, empty, second));
  }

  lemma CleanedBurst(cfg: Config, s: Option<Bucket>, t: real, es: seq<Event>)
    requires s.Some? && Idle(s.value, t)
    ensures Answers(cfg, s, [Clean(t)] + es) == Answers(cfg, None, es)
  {
    assert ([Clean(t)] + es)[1..] == es;
  }

  lemma CleanIsNoCall(t: real, es: seq<Event>)
    ensures Calls([Clean(t)] + es) == Calls(es)
  {
    assert ([Clean(t)] + es)[1..] == es;
  }

  /** Dropping idle limiters between calls changes no answer of any run exactly when ten minutes fill a bucket. */
  lemma DroppingIsInvisibleIff(cfg: Config)
    ensures FillsWhileIdle(cfg) <==>
            forall es: seq<Event>, t: real :: From(es, t) ==> Answers(cfg, None, es) == Answers(cfg, None, Calls(es))
  {
    hide Answers, Calls, FillsWhileIdle, JustPast;
    if FillsWhileIdle(cfg) {
      forall es: seq<Event>, t: real | From(es, t)
        ensures Answers(cfg, None, es) == Answers(cfg, None, Calls(es))
      {
        DroppingKeepsAnswers(cfg, None, None, es, t);
      }
    } else {
      NotYetFull(cfg);
      DroppingShows(cfg);
      assert From(Trial(cfg), 0.0);
    }
  }
}
