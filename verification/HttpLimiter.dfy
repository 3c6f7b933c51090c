/** The per-IP request limiter of the HTTP API. */
module HttpLimiter {
  import opened Common

  /** requests per window, and the window in the clock's unit; buckets are dropped after two windows. */
  datatype Config = Config(limit: int, window: nat)

  datatype Bucket = Bucket(tokens: int, lastRefill: int)

  /** One request: allowed or not, and the bucket it leaves. */
  function Allow(cfg: Config, s: Option<Bucket>, now: int): (bool, Bucket) {
    match s
    case None => (true, Bucket(cfg.limit - 1, now))
    case Some(b) =>
      var r := if now - b.lastRefill >= cfg.window then Bucket(cfg.limit, now) else b;
      if r.tokens > 0 then (true, r.(tokens := r.tokens - 1)) else (false, r)
  }

  predicate Old(cfg: Config, b: Bucket, now: int) {
    now - b.lastRefill > 2 * cfg.window
  }

  class RateLimiter {
    const cfg: Config
    var buckets: map<string, Bucket>

    constructor (cfg: Config)
      ensures this.cfg == cfg && buckets == map[]
    {
      this.cfg := cfg;
      buckets := map[];
    }

    function Of(ip: string): Option<Bucket>
      reads this
    {
      if ip in buckets then Some(buckets[ip]) else None
    }

    method AllowRequest(ip: string, now: int) returns (allowed: bool)
      modifies this
      ensures ip == "" ==> allowed && buckets == old(buckets)
      ensures ip != "" ==>
                var (ok, b) := Allow(cfg, old(Of(ip)), now);
                allowed == ok && buckets == old(buckets)[ip := b]
    {
      if ip == "" {
        return true;
      }
      if ip !in buckets {
        buckets := buckets[ip := Bucket(cfg.limit - 1, now)];
        return true;
      }
      var b := buckets[ip];
      if now - b.lastRefill >= cfg.window {
        b := Bucket(cfg.limit, now);
        buckets := buckets[ip := b];
      }
      if b.tokens > 0 {
        buckets := buckets[ip := b.(tokens := b.tokens - 1)];
        return true;
      }
      assert buckets == old(buckets)[ip := b];
      return false;
    }

    method Cleanup(now: int)
      modifies this
      ensures buckets == Swept(cfg, old(buckets), now, {})
      ensures forall ip :: ip in buckets <==> ip in old(buckets) && now - old(buckets)[ip].lastRefill <= 2 * cfg.window
      ensures forall ip :: ip in buckets ==> ip in old(buckets) && buckets[ip] == old(buckets)[ip]
    {
      var todo := buckets.Keys;
      ghost var was := buckets;
      while todo != {}
        invariant todo <= was.Keys
        invariant buckets == Swept(cfg, was, now, todo)
        decreases |todo|
      {
        var ip :| ip in todo;
        if Old(cfg, buckets[ip], now) {
          buckets := buckets - {ip};
        }
        todo := todo - {ip};
      }
    }
  }

  function Swept(cfg: Config, m: map<string, Bucket>, now: int, todo: set<string>): map<string, Bucket> {
    map ip | ip in m && (ip in todo || !Old(cfg, m[ip], now)) :: m[ip]
  }

  // ---------------------------------------------------------------- runs of one address

  datatype Event = Request(at: int) | Clean(at: int)

  function Step(cfg: Config, s: Option<Bucket>, e: Event): Option<Bucket> {
    match e
    case Request(at) => Some(Allow(cfg, s, at).1)
    case Clean(at) => if s.Some? && Old(cfg, s.value, at) then None else s
  }

  function After(cfg: Config, s: Option<Bucket>, es: seq<Event>): Option<Bucket>
    decreases es
  {
    if es == [] then s else After(cfg, Step(cfg, s, es[0]), es[1..])
  }

  function Admitted(cfg: Config, s: Option<Bucket>, es: seq<Event>): nat
    decreases es
  {
    if es == [] then 0
    else
      (if es[0].Request? && Allow(cfg, s, es[0].at).0 then 1 else 0) + Admitted(cfg, Step(cfg, s, es[0]), es[1..])
  }

  predicate Between(es: seq<Event>, from: int, end: int) {
    && (forall i :: 0 <= i < |es| ==> from <= es[i].at <= end)
    && (forall i, j :: 0 <= i < j < |es| ==> es[i].at <= es[j].at)
  }

  function NonNegative(x: int): nat {
    if x < 0 then 0 else x
  }

  /** What a bucket can still pay for until the given end: its tokens, and one refill if one can come due. */
  function Budget(cfg: Config, s: Option<Bucket>, end: int): nat {
    match s
    case None => NonNegative(cfg.limit)
    case Some(b) =>
      NonNegative(b.tokens) + (if end - b.lastRefill >= cfg.window then NonNegative(cfg.limit) else 0)
  }

  lemma {:induction false} WithinBudget(cfg: Config, s: Option<Bucket>, es: seq<Event>, from: int, end: int)
    requires cfg.limit >= 1 && Between(es, from, end) && end - from < cfg.window
    ensures Admitted(cfg, s, es) <= Budget(cfg, s, end)
    decreases es
  {
    if es != [] {
      WithinBudget(cfg, Step(cfg, s, es[0]), es[1..], from, end);
    }
  }

  lemma {:induction false} TokensBounded(cfg: Config, s: Option<Bucket>, es: seq<Event>)
    requires cfg.limit >= 1 && (s.Some? ==> s.value.tokens <= cfg.limit)
    ensures After(cfg, s, es).Some? ==> After(cfg, s, es).value.tokens <= cfg.limit
    decreases es
  {
    if es != [] { TokensBounded(cfg, Step(cfg, s, es[0]), es[1..]); }
  }

  /** The limit of requests in a stretch shorter than one window, after any run. */
  ghost predicate AtMostTwiceTheLimit(cfg: Config) {
    forall before: seq<Event>, es: seq<Event>, from: int, end: int ::
      Between(es, from, end) && end - from < cfg.window ==>
        Admitted(cfg, After(cfg, None, before), es) <= 2 * cfg.limit
  }

  /** The limiter keeps to twice its limit per window exactly when the limit is positive. */
  lemma TwiceTheLimitIff(cfg: Config)
    requires cfg.window > 0
    ensures AtMostTwiceTheLimit(cfg) <==> cfg.limit >= 1
  {
    if cfg.limit >= 1 {
      forall before: seq<Event>, es: seq<Event>, from: int, end: int
        | Between(es, from, end) && end - from < cfg.window
        ensures Admitted(cfg, After(cfg, None, before), es) <= 2 * cfg.limit
      {
        TokensBounded(cfg, None, before);
        WithinBudget(cfg, After(cfg, None, before), es, from, end);
      }
    } else {
      var es := [Request(0)];
      assert Between(es, 0, 0) && After(cfg, None, []) == None;
      assert Admitted(cfg, None, es) == 1;
    }
  }

  /** As many requests as the limit pass from the first one on, however they are spaced. */
  lemma {:induction false} LimitIsReached(cfg: Config, s: Option<Bucket>, es: seq<Event>)
    requires |es| <= cfg.limit && (s.Some? ==> |es| <= s.value.tokens)
    requires forall i :: 0 <= i < |es| ==> es[i].Request?
    ensures Admitted(cfg, s, es) == |es|
    decreases es
  {
    if es != [] { LimitIsReached(cfg, Step(cfg, s, es[0]), es[1..]); }
  }

  function Repeat(at: int, k: nat): (es: seq<Event>)
    ensures |es| == k && forall i :: 0 <= i < k ==> es[i] == Request(at)
  {
    seq(k, i => Request(at))
  }

  lemma {:induction false} BucketAfter(cfg: Config, b: Bucket, at: int, k: nat)
    requires k <= b.tokens && at - b.lastRefill < cfg.window
    ensures After(cfg, Some(b), Repeat(at, k)) == Some(Bucket(b.tokens - k, b.lastRefill))
    decreases k
  {
    if k > 0 {
      assert Repeat(at, k)[1..] == Repeat(at, k - 1);
      BucketAfter(cfg, b.(tokens := b.tokens - 1), at, k - 1);
    }
  }

  /** Of the requests that come together just the limit pass; the next passes only a window after the first. */
  lemma ThenRefused(cfg: Config, at: int, now: int)
    requires cfg.limit >= 1 && cfg.window > 0
    ensures
      var s := After(cfg, None, Repeat(at, cfg.limit));
      && Admitted(cfg, None, Repeat(at, cfg.limit)) == cfg.limit
      && (Allow(cfg, s, now).0 <==> now - at >= cfg.window)
  {
    LimitIsReached(cfg, None, Repeat(at, cfg.limit));
    assert Repeat(at, cfg.limit)[1..] == Repeat(at, cfg.limit - 1);
    BucketAfter(cfg, Bucket(cfg.limit - 1, at), at, cfg.limit - 1);
  }

  // ---------------------------------------------------------------- the periodic cleanup

  function Requests(es: seq<Event>): seq<Event> {
    if es == [] then [] else (if es[0].Request? then [es[0]] else []) + Requests(es[1..])
  }

  /** A dropped bucket stands for one whose refill is due. */
  predicate Same(cfg: Config, dropped: Option<Bucket>, kept: Option<Bucket>, t: int) {
    dropped == kept || (dropped.None? && kept.Some? && t - kept.value.lastRefill >= cfg.window)
  }

  lemma {:induction false} CleanupLeadsToSameBucket(
      cfg: Config, dropped: Option<Bucket>, kept: Option<Bucket>, es: seq<Event>, from: int, end: int)
    requires cfg.limit >= 1 && Between(es, from, end) && Same(cfg, dropped, kept, from)
    ensures Admitted(cfg, dropped, es) == Admitted(cfg, kept, Requests(es))
    ensures es != [] && es[|es| - 1].Request? ==> After(cfg, dropped, es) == After(cfg, kept, Requests(es))
    decreases es
  {
    if es != [] {
      var e := es[0];
      if e.Request? {
        assert Requests(es)[1..] == Requests(es[1..]);
        CleanupLeadsToSameBucket(cfg, Step(cfg, dropped, e), Step(cfg, kept, e), es[1..], e.at, end);
      } else {
        assert Requests(es) == Requests(es[1..]);
        CleanupLeadsToSameBucket(cfg, Step(cfg, dropped, e), kept, es[1..], e.at, end);
      }
    }
  }

  /** Every run is the same with and without its cleanups: as many admitted, and the same bucket after each request. */
  ghost predicate CleanupIsInvisible(cfg: Config) {
    forall es: seq<Event>, from: int, end: int :: Between(es, from, end) ==>
      && Admitted(cfg, None, es) == Admitted(cfg, None, Requests(es))
      && (es != [] && es[|es| - 1].Request? ==> After(cfg, None, es) == After(cfg, None, Requests(es)))
  }

  /** For a limit of zero or less a dropped bucket admits one more request; otherwise cleaning is invisible. */
  lemma CleanupIsInvisibleIff(cfg: Config)
    ensures CleanupIsInvisible(cfg) <==> cfg.limit >= 1
  {
    if cfg.limit >= 1 {
      forall es: seq<Event>, from: int, end: int | Between(es, from, end)
        ensures Admitted(cfg, None, es) == Admitted(cfg, None, Requests(es))
        ensures es != [] && es[|es| - 1].Request? ==> After(cfg, None, es) == After(cfg, None, Requests(es))
      {
        CleanupLeadsToSameBucket(cfg, None, None, es, from, end);
      }
    } else {
      var t := 2 * cfg.window + 1;
      var es := [Request(0), Clean(t), Request(t)];
      assert Between(es, 0, t);
      assert es[1..] == [Clean(t), Request(t)] && es[1..][1..] == [Request(t)] && es[1..][1..][1..] == [];
      var first := Some(Bucket(cfg.limit - 1, 0));
      assert Admitted(cfg, None, es[2..]) == 1;
      assert Admitted(cfg, first, es[1..]) == 1;
      assert Requests(es[1..][1..]) == [Request(t)];
      assert Requests(es) == [Request(0), Request(t)];
      assert [Request(0), Request(t)][1..] == [Request(t)];
      assert Admitted(cfg, first, [Request(t)]) == 0;
    }
  }
}
