/**
 The IP reputation tracker.  Clock readings are parameters, one per reading the code takes; times are integers in
 one fixed unit.  The class is the imperative code, Step and Sweep are what it does to the abstract state.
 */
module Reputation {
  import opened Common
  import opened Classifier

  const MINUTE: int := 60
  const HOUR: int := 60 * MINUTE

  datatype Config = Config(enabled: bool, threshold: int, windowMinutes: int, retryHours: int, cleanupHours: int)

  datatype Info = Info(degradedAt: int, retryAfter: int, failureCount: nat)

  datatype State = State(degraded: map<string, Info>, strikes: map<string, seq<int>>)

  /** What a delivery attempt tells the tracker. */
  datatype Signal = Success | Strong | Weak | Neutral

  /** An attempt, with the readings of the health check, of recordStrike and of MarkIPDegraded. */
  datatype Event = Event(ip: string, signal: Signal, tHealthy: int, tStrike: int, tDegrade: int)

  function SignalOf(success: bool, err: Option<DeliveryError>): Signal {
    if success then Success
    else if err.None? || err.value.category != Reputation then Neutral
    else if err.value.immediateDegrade then Strong
    else Weak
  }

  function Window(cfg: Config): (w: int)
    ensures w > 0
  {
    if cfg.windowMinutes <= 0 then 30 * MINUTE else cfg.windowMinutes * MINUTE
  }

  /** The strikes later than the cutoff, in order. */
  function Live(strikes: seq<int>, cutoff: int): (r: seq<int>)
    ensures forall t :: t in r <==> t in strikes && t > cutoff
  {
    if strikes == [] then []
    else
      var n := |strikes| - 1;
      assert strikes == strikes[..n] + [strikes[n]];
      Live(strikes[..n], cutoff) + (if strikes[n] > cutoff then [strikes[n]] else [])
  }

  function StrikesOf(s: State, ip: string): seq<int> {
    if ip in s.strikes then s.strikes[ip] else []
  }

  predicate Healthy(cfg: Config, s: State, ip: string, now: int) {
    !cfg.enabled || ip !in s.degraded || now > s.degraded[ip].retryAfter
  }

  function Degrade(cfg: Config, s: State, ip: string, now: int): State {
    if !cfg.enabled then s
    else
      var failures := if ip in s.degraded then s.degraded[ip].failureCount else 0;
      s.(degraded := s.degraded[ip := Info(now, now + cfg.retryHours * HOUR, failures + 1)])
  }

  function ClearStrikes(s: State, ip: string): State {
    s.(strikes := s.strikes - {ip})
  }

  /** One weak strike: did it reach the threshold, and the state it leaves. */
  function Strike(cfg: Config, s: State, ip: string, now: int): (bool, State) {
    if cfg.threshold <= 1 then (true, s)
    else
      var kept := Live(StrikesOf(s, ip), now - Window(cfg)) + [now];
      if |kept| >= cfg.threshold then (true, ClearStrikes(s, ip))
      else (false, s.(strikes := s.strikes[ip := kept]))
  }

  /** One attempt: the new state and whether a degrade event was fired. */
  function Step(cfg: Config, s: State, e: Event): (State, bool) {
    if !cfg.enabled || e.ip == "" then (s, false)
    else
      match e.signal
      case Success => (State(s.degraded - {e.ip}, s.strikes - {e.ip}), false)
      case Neutral => (s, false)
      case Strong => (Degrade(cfg, ClearStrikes(s, e.ip), e.ip, e.tDegrade), true)
      case Weak =>
        if !Healthy(cfg, s, e.ip, e.tHealthy) then (s, false)
        else
          var (crossed, s') := Strike(cfg, s, e.ip, e.tStrike);
          if crossed then (Degrade(cfg, s', e.ip, e.tDegrade), true) else (s', false)
  }

  /** A cleanup: t0 is the first reading, clock(ip) the one taken for an entry, t2 the one before the strike sweep. */
  datatype SweepClock = SweepClock(t0: int, clock: string -> int, t2: int)

  predicate OldEntry(cfg: Config, info: Info, t0: int, now: int) {
    info.degradedAt < t0 - cfg.cleanupHours * HOUR && now > info.retryAfter
  }

  predicate StaleStrikes(cfg: Config, strikes: seq<int>, t2: int) {
    strikes == [] || strikes[|strikes| - 1] < t2 - Window(cfg)
  }

  /** The degraded entries left when all but those in todo have been examined. */
  function SweepDegraded(cfg: Config, m: map<string, Info>, c: SweepClock, todo: set<string>): map<string, Info> {
    map ip | ip in m && (ip in todo || !OldEntry(cfg, m[ip], c.t0, c.clock(ip))) :: m[ip]
  }

  function SweepStrikes(cfg: Config, m: map<string, seq<int>>, t2: int, todo: set<string>): map<string, seq<int>> {
    map ip | ip in m && (ip in todo || !StaleStrikes(cfg, m[ip], t2)) :: m[ip]
  }

  function Sweep(cfg: Config, s: State, c: SweepClock): State {
    if !cfg.enabled then s
    else State(SweepDegraded(cfg, s.degraded, c, {}), SweepStrikes(cfg, s.strikes, c.t2, {}))
  }

  // ---------------------------------------------------------------- the code

  /** Keeps the strikes after the cutoff at the front of the same buffer and returns how many there are. */
  method PruneInPlace(a: array<int>, cutoff: int) returns (kept: nat)
    modifies a
    ensures kept <= a.Length
    ensures a[..kept] == Live(old(a[..]), cutoff)
  {
    kept := 0;
    ghost var was := a[..];
    for i := 0 to a.Length
      invariant kept <= i
      invariant a[i..] == was[i..]
      invariant a[..kept] == Live(was[..i], cutoff)
    {
      assert was[..i + 1][..i] == was[..i];
      var t := a[i];
      assert t == was[i];
      if t > cutoff {
        a[kept] := t;
        kept := kept + 1;
        assert a[..kept] == Live(was[..i], cutoff) + [t];
      }
      assert a[i + 1..] == was[i + 1..];
    }
    assert was[..a.Length] == was;
  }

  class Tracker {
    const cfg: Config
    var degradedIps: map<string, Info>
    var repStrikes: map<string, seq<int>>

    ghost function Abs(): State
      reads this
    {
      State(degradedIps, repStrikes)
    }

    constructor (cfg: Config)
      ensures this.cfg == cfg && Abs() == State(map[], map[])
    {
      this.cfg := cfg;
      degradedIps, repStrikes := map[], map[];
    }

    method IsIpHealthy(ip: string, now: int) returns (healthy: bool)
      ensures healthy == Healthy(cfg, Abs(), ip, now)
      ensures healthy <==> !cfg.enabled || ip !in degradedIps || now > degradedIps[ip].retryAfter
    {
      if !cfg.enabled {
        return true;
      }
      if ip !in degradedIps {
        return true;
      }
      return now > degradedIps[ip].retryAfter;
    }

    /** Each address is asked at its own reading of the clock. */
    method GetHealthyIps(ips: seq<string>, clock: nat -> int) returns (healthy: seq<string>)
      ensures !cfg.enabled ==> healthy == ips
      ensures healthy == HealthyOnly(cfg, Abs(), ips, clock)
    {
      if !cfg.enabled {
        AllHealthy(cfg, Abs(), ips, clock);
        return ips;
      }
      healthy := [];
      for i := 0 to |ips|
        invariant healthy == HealthyOnly(cfg, Abs(), ips[..i], clock)
      {
        assert ips[..i + 1][..i] == ips[..i];
        var ok := IsIpHealthy(ips[i], clock(i));
        if ok {
          healthy := healthy + [ips[i]];
        }
      }
      assert ips[..|ips|] == ips;
    }

    method MarkIpDegraded(ip: string, now: int)
      modifies this
      ensures Abs() == Degrade(cfg, old(Abs()), ip, now)
      ensures cfg.enabled ==>
                var failures := if ip in old(degradedIps) then old(degradedIps)[ip].failureCount else 0;
                degradedIps == old(degradedIps)[ip := Info(now, now + 3600 * cfg.retryHours, failures + 1)]
    {
      if !cfg.enabled {
        return;
      }
      var retryAfter := now + cfg.retryHours * HOUR;
      if ip !in degradedIps {
        degradedIps := degradedIps[ip := Info(now, retryAfter, 1)];
      } else {
        degradedIps := degradedIps[ip := Info(now, retryAfter, degradedIps[ip].failureCount + 1)];
      }
    }

    method MarkIpRecovered(ip: string)
      modifies this
      ensures Abs() == (if cfg.enabled then old(Abs()).(degraded := old(Abs()).degraded - {ip}) else old(Abs()))
    {
      if !cfg.enabled || ip !in degradedIps {
        return;
      }
      degradedIps := degradedIps - {ip};
    }

    method RecordStrike(ip: string, now: int) returns (crossed: bool)
      modifies this
      ensures (crossed, Abs()) == Strike(cfg, old(Abs()), ip, now)
    {
      if cfg.threshold <= 1 {
        return true;
      }
      var cutoff := now - Window(cfg);
      var strikes := if ip in repStrikes then repStrikes[ip] else [];
      var buffer := new int[|strikes|](i requires 0 <= i < |strikes| => strikes[i]);
      assert buffer[..] == strikes;
      var n := PruneInPlace(buffer, cutoff);
      var kept := buffer[..n] + [now];
      if |kept| >= cfg.threshold {
        repStrikes := repStrikes - {ip};
        return true;
      }
      repStrikes := repStrikes[ip := kept];
      return false;
    }

    method DropStrikes(ip: string)
      modifies this
      ensures Abs() == ClearStrikes(old(Abs()), ip)
    {
      if ip !in repStrikes {
        return;
      }
      repStrikes := repStrikes - {ip};
    }

    method RecordDeliveryAttempt(
        ip: string, success: bool, err: Option<DeliveryError>, tHealthy: int, tStrike: int, tDegrade: int)
      returns (fired: bool)
      modifies this
      ensures (Abs(), fired) ==
              Step(cfg, old(Abs()), Event(ip, SignalOf(success, err), tHealthy, tStrike, tDegrade))
    {
      if !cfg.enabled || ip == "" {
        return false;
      }
      if success {
        DropStrikes(ip);
        if ip in degradedIps {
          MarkIpRecovered(ip);
        }
        assert degradedIps == old(degradedIps) - {ip};
        return false;
      }
      if err.None? || err.value.category != Reputation {
        return false;
      }
      if err.value.immediateDegrade {
        DropStrikes(ip);
        MarkIpDegraded(ip, tDegrade);
        return true;
      }
      var healthy := IsIpHealthy(ip, tHealthy);
      if !healthy {
        return false;
      }
      var crossed := RecordStrike(ip, tStrike);
      if crossed {
        MarkIpDegraded(ip, tDegrade);
      }
      return crossed;
    }

    method Cleanup(c: SweepClock)
      modifies this
      ensures Abs() == Sweep(cfg, old(Abs()), c)
      ensures cfg.enabled ==> forall ip :: ip in degradedIps <==>
                && ip in old(degradedIps)
                && !(&& old(degradedIps)[ip].degradedAt < c.t0 - 3600 * cfg.cleanupHours
                     && c.clock(ip) > old(degradedIps)[ip].retryAfter)
      ensures cfg.enabled ==> forall ip :: ip in repStrikes <==>
                && ip in old(repStrikes) && old(repStrikes)[ip] != []
                && var window := if cfg.windowMinutes <= 0 then 1800 else 60 * cfg.windowMinutes;
                   Newest(old(repStrikes)[ip]) >= c.t2 - window
      ensures forall ip :: ip in degradedIps ==> ip in old(degradedIps) && degradedIps[ip] == old(degradedIps)[ip]
      ensures forall ip :: ip in repStrikes ==> ip in old(repStrikes) && repStrikes[ip] == old(repStrikes)[ip]
    {
      if !cfg.enabled {
        return;
      }
      DropOldEntries(c);
      DropStaleStrikes(c.t2);
    }

    method DropOldEntries(c: SweepClock)
      modifies this`degradedIps
      ensures degradedIps == SweepDegraded(cfg, old(degradedIps), c, {})
    {
      var todo := degradedIps.Keys;
      ghost var was := degradedIps;
      while todo != {}
        invariant todo <= was.Keys
        invariant degradedIps == SweepDegraded(cfg, was, c, todo)
        decreases |todo|
      {
        var ip :| ip in todo;
        if OldEntry(cfg, degradedIps[ip], c.t0, c.clock(ip)) {
          degradedIps := degradedIps - {ip};
        }
        todo := todo - {ip};
      }
    }

    method DropStaleStrikes(t2: int)
      modifies this`repStrikes
      ensures repStrikes == SweepStrikes(cfg, old(repStrikes), t2, {})
    {
      var todo := repStrikes.Keys;
      ghost var was := repStrikes;
      while todo != {}
        invariant todo <= was.Keys
        invariant repStrikes == SweepStrikes(cfg, was, t2, todo)
        decreases |todo|
      {
        var ip :| ip in todo;
        if StaleStrikes(cfg, repStrikes[ip], t2) {
          repStrikes := repStrikes - {ip};
        }
        todo := todo - {ip};
      }
    }
  }

  function Newest(strikes: seq<int>): int
    requires strikes != []
  {
    strikes[|strikes| - 1]
  }

  /** An address passes exactly if one of its places in the list was asked and found healthy. */
  lemma {:induction false} HealthyOnlyExactly(cfg: Config, s: State, ips: seq<string>, clock: nat -> int, ip: string)
    ensures ip in HealthyOnly(cfg, s, ips, clock) <==>
            exists i :: 0 <= i < |ips| && ips[i] == ip && Healthy(cfg, s, ip, clock(i))
  {
    if ips != [] {
      var n := |ips| - 1;
      HealthyOnlyExactly(cfg, s, ips[..n], clock, ip);
      assert forall i :: 0 <= i < n ==> ips[..n][i] == ips[i];
    }
  }

  /** The order of the list is kept: what passes of its beginning is the beginning of what passes. */
  lemma {:induction false} HealthyOnlyInOrder(cfg: Config, s: State, ips: seq<string>, clock: nat -> int, n: nat)
    requires n <= |ips|
    ensures HealthyOnly(cfg, s, ips[..n], clock) <= HealthyOnly(cfg, s, ips, clock)
  {
    if n == |ips| {
      assert ips[..n] == ips;
    } else {
      HealthyOnlyInOrder(cfg, s, ips[..|ips| - 1], clock, n);
      assert ips[..|ips| - 1][..n] == ips[..n];
    }
  }

  // ---------------------------------------------------------------- in plain seconds

  function WeakAt(ip: string, t: int): Event {
    Event(ip, Weak, t, t, t)
  }

  /** With a threshold of two, a second weak signal degrades exactly if it comes within the window. */
  lemma SecondWeakSignal(cfg: Config, ip: string, t: int, t': int)
    requires cfg.enabled && ip != "" && cfg.threshold == 2
    ensures
      var first := Step(cfg, State(map[], map[]), WeakAt(ip, t));
      && !first.1
      && (Step(cfg, first.0, WeakAt(ip, t')).1 <==>
            t' - t < if cfg.windowMinutes <= 0 then 1800 else 60 * cfg.windowMinutes)
  {
    var s := Step(cfg, State(map[], map[]), WeakAt(ip, t)).0;
    assert Live([], t - Window(cfg)) == [];
    assert StrikesOf(s, ip) == [t];
    assert [t][..0] == [];
    assert Live([t], t' - Window(cfg)) == if t > t' - Window(cfg) then [t] else [];
  }

  /** A degraded address is back in rotation once the configured hours have passed. */
  lemma OutForRetryHours(cfg: Config, s: State, ip: string, t: int, now: int)
    requires cfg.enabled && ip != ""
    ensures
      var (s', fired) := Step(cfg, s, Event(ip, Strong, t, t, t));
      fired && (Healthy(cfg, s', ip, now) <==> now > t + 3600 * cfg.retryHours)
  {
  }

  function HealthyOnly(cfg: Config, s: State, ips: seq<string>, clock: nat -> int): seq<string> {
    if ips == [] then []
    else
      var n := |ips| - 1;
      HealthyOnly(cfg, s, ips[..n], clock) + (if Healthy(cfg, s, ips[n], clock(n)) then [ips[n]] else [])
  }

  lemma {:induction false} AllHealthy(cfg: Config, s: State, ips: seq<string>, clock: nat -> int)
    requires !cfg.enabled
    ensures HealthyOnly(cfg, s, ips, clock) == ips
  {
    if ips != [] { AllHealthy(cfg, s, ips[..|ips| - 1], clock); }
  }
}
