/**
 The delivery engine: MX hosts, IP versions, source IPs and pooled or fresh connections, tried in nested loops.

 Everything the engine cannot decide (network answers, context cancellation, resolver answers, rotation start,
 tracker answers) is read from a World, whose functions are indexed by the loop position that asks.  Each position
 is visited at most once, so quantifying over worlds quantifies over all runs.
 */
module Delivery {
  import opened Common
  import opened Classifier

  // ---------------------------------------------------------------- statuses and replies

  /** Failed is "error", NoStatus the empty string of a result that was never assigned. */
  datatype Status = Delivered | HardBounce | TempFail | Timeout | Unknown | Failed | RateLimited | NoStatus

  datatype Protocol = Smtp | Lmtp

  /** A failed exchange: does its text mention a bind failure, was it a network timeout, had the context ended? */
  datatype Fault = Fault(bind: bool, timedOut: bool, ctxEnded: bool)

  /** The LMTP reader parses three characters as a signed number, so its codes are plain integers. */
  datatype Reply = Code(code: int, text: string) | NoReply(fault: Fault)

  /** The SMTP client library reports a line whose code is below 100 as a broken exchange. */
  type SmtpCode = c: int | 100 <= c witness 250

  type SmtpReply = r: Reply | r.Code? ==> 100 <= r.code witness Code(250, "")

  /** One SMTP command as the client library reports it: expected reply, other reply, or broken exchange. */
  datatype Phase = Accepted | Refused(code: SmtpCode, text: string) | Broken(fault: Fault)

  predicate IsFinal(s: Status) {
    s in {Delivered, HardBounce, TempFail, Unknown}
  }

  // ---------------------------------------------------------------- one transaction

  datatype SmtpScript = SmtpScript(
    ctxBefore: bool, ctxMail: bool, mail: Phase, ctxRcpt: bool, rcpt: Phase,
    ctxData: bool, data: Phase, bodyFault: Option<Fault>, final: SmtpReply)

  datatype LmtpScript = LmtpScript(
    mailFault: Option<Fault>, mail: Reply, rcptFault: Option<Fault>, rcpt: Reply,
    dataFault: Option<Fault>, data: Reply, bodyFault: Option<Fault>, final: Reply)

  /**
   What a transaction leaves behind.  code is the reply code of the result (0 when there is none), final the reply
   to the terminating dot: present exactly when the body was sent and the dot was begun.  A lost reply includes a dot
   that failed on its way and may not have gone out.
   */
  datatype Outcome = Outcome(status: Status, code: int, final: Option<Reply>, err: Option<DeliveryError>)

  function MapSmtpError(code: nat, text: string, indeterminate: bool, bind: bool, sourceIp: string)
    : (Status, Option<DeliveryError>)
  {
    if code == 0 && indeterminate then (Unknown, None)
    else
      match ClassifyError(code, text, sourceIp)
      case None => (Failed, None)
      case Some(e) =>
        var status :=
          if code > 0 then (if code >= 500 then HardBounce else TempFail)
          else if bind then Failed
          else match e.category
               case Permanent => HardBounce
               case Network => Timeout
               case _ => TempFail;
        (status, Some(e))
  }

  /** An error raised before the terminating dot. */
  function EarlyFailure(code: nat, text: string, bind: bool, sourceIp: string): Outcome {
    var (status, err) := MapSmtpError(code, text, false, bind, sourceIp);
    Outcome(status, code, None, err)
  }

  function PhaseFailure(p: Phase, sourceIp: string): Outcome
    requires !p.Accepted?
  {
    match p
    case Refused(code, text) => EarlyFailure(code, text, false, sourceIp)
    case Broken(f) => EarlyFailure(0, "", f.bind, sourceIp)
  }

  function SmtpFinal(reply: SmtpReply, sourceIp: string): Outcome {
    match reply
    case Code(code, text) =>
      if code == 250 then Outcome(Delivered, 250, Some(reply), None)
      else
        var (status, err) := MapSmtpError(code, text, true, false, sourceIp);
        Outcome(status, code, Some(reply), err)
    case NoReply(f) =>
      var (status, err) := MapSmtpError(0, "", true, f.bind, sourceIp);
      Outcome(status, 0, Some(reply), err)
  }

  function SmtpTransaction(s: SmtpScript, sourceIp: string): Outcome {
    if s.ctxBefore then Outcome(Timeout, 0, None, None)
    else if s.ctxMail then EarlyFailure(0, "", false, sourceIp)
    else if !s.mail.Accepted? then PhaseFailure(s.mail, sourceIp)
    else if s.ctxRcpt then EarlyFailure(0, "", false, sourceIp)
    else if !s.rcpt.Accepted? then PhaseFailure(s.rcpt, sourceIp)
    else if s.ctxData then EarlyFailure(0, "", false, sourceIp)
    else if !s.data.Accepted? then PhaseFailure(s.data, sourceIp)
    else if s.bodyFault.Some? then EarlyFailure(0, "", s.bodyFault.value.bind, sourceIp)
    else SmtpFinal(s.final, sourceIp)
  }

  function LmtpFaultStatus(f: Fault): Status {
    if f.timedOut || f.ctxEnded then Timeout else Failed
  }

  function ClassifyLmtpResult(code: int): Status {
    if 200 <= code < 300 then Delivered
    else if 400 <= code < 500 then TempFail
    else if 500 <= code < 600 then HardBounce
    else Failed
  }

  function LmtpBroken(f: Fault): Outcome {
    Outcome(LmtpFaultStatus(f), 0, None, None)
  }

  /** One LMTP command: None to go on, or the outcome the transaction ends with. */
  function LmtpCommand(writeFault: Option<Fault>, reply: Reply, expected: int): Option<Outcome> {
    if writeFault.Some? then Some(LmtpBroken(writeFault.value))
    else if reply.NoReply? then Some(LmtpBroken(reply.fault))
    else if reply.code != expected then Some(Outcome(ClassifyLmtpResult(reply.code), reply.code, None, None))
    else None
  }

  function LmtpTransaction(s: LmtpScript): Outcome {
    var mail := LmtpCommand(s.mailFault, s.mail, 250);
    if mail.Some? then mail.value else
    var rcpt := LmtpCommand(s.rcptFault, s.rcpt, 250);
    if rcpt.Some? then rcpt.value else
    var data := LmtpCommand(s.dataFault, s.data, 354);
    if data.Some? then data.value else
    if s.bodyFault.Some? then LmtpBroken(s.bodyFault.value) else
    match s.final
    case NoReply(_) => Outcome(Unknown, 0, Some(s.final), None)
    case Code(code, _) => Outcome(ClassifyLmtpResult(code), code, Some(s.final), None)
  }

  // ---------------------------------------------------------------- one attempt

  datatype Leg = V4 | V6 | System

  /** Loop position of an attempt: MX index, IP version (or system default), index of the source IP. */
  datatype Site = Site(mx: nat, leg: Leg, k: nat)

  datatype Txn = Txn(site: Site, sourceIp: string, pooled: bool, out: Outcome)

  /** Why dialling or greeting a server failed. */
  type DialFailure = s: Status | s in {Timeout, Failed, TempFail} witness Timeout

  datatype AttemptScript = AttemptScript(
    idle: Option<SmtpScript>, dial: Option<DialFailure>, dialled: SmtpScript, lmtp: LmtpScript)

  /** A run so far: status, attempts begun, transactions begun, and whether the status ends the whole run. */
  datatype Run = Run(status: Status, tried: seq<Site>, txns: seq<Txn>, stop: bool)

  predicate KeepPooledResult(s: Status) {
    s in {Delivered, HardBounce, Timeout, Unknown}
  }

  function FreshAttempt(site: Site, ip: string, a: AttemptScript): (Status, seq<Txn>) {
    if a.dial.Some? then (a.dial.value, [])
    else var out := SmtpTransaction(a.dialled, ip); (out.status, [Txn(site, ip, false, out)])
  }

  function AttemptDelivery(proto: Protocol, site: Site, ip: string, a: AttemptScript): (Status, seq<Txn>) {
    match proto
    case Lmtp =>
      if a.dial.Some? then (a.dial.value, [])
      else var out := LmtpTransaction(a.lmtp); (out.status, [Txn(site, ip, false, out)])
    case Smtp =>
      if a.idle.Some? then
        var out := SmtpTransaction(a.idle.value, ip);
        var first := Txn(site, ip, true, out);
        if KeepPooledResult(out.status) then (out.status, [first])
        else var (status, rest) := FreshAttempt(site, ip, a); (status, [first] + rest)
      else FreshAttempt(site, ip, a)
  }

  // ---------------------------------------------------------------- the loops, as functions

  datatype IpMode = Dual | V4Only | V6Only | OtherMode

  datatype Config = Config(proto: Protocol, mode: IpMode, preferV6: bool, poolV4: seq<string>, poolV6: seq<string>)

  /** Address families an MX host resolved to. */
  datatype Families = Families(v4: bool, v6: bool)

  datatype World = World(
    cancelled: nat -> bool,
    resolve: nat -> Option<Families>,
    start: (nat, Leg) -> nat,
    healthy: (nat, Leg, nat) -> bool,
    ipCancelled: Site -> bool,
    attempt: Site -> AttemptScript)

  predicate TryV4(cfg: Config) {
    cfg.proto == Smtp && cfg.mode in {Dual, V4Only} && cfg.poolV4 != []
  }

  predicate TryV6(cfg: Config) {
    cfg.proto == Smtp && cfg.mode in {Dual, V6Only} && cfg.poolV6 != []
  }

  predicate V6First(cfg: Config) {
    TryV6(cfg) && (cfg.mode == V6Only || (cfg.mode == Dual && cfg.preferV6))
  }

  function When<T>(b: bool, x: T): seq<T> {
    if b then [x] else []
  }

  /** The IP versions tried for a host, in order. */
  function Legs(cfg: Config, f: Families): seq<Leg> {
    if V6First(cfg) then When(f.v6, V6) + When(TryV4(cfg) && f.v4, V4)
    else if TryV4(cfg) then When(f.v4, V4) + When(TryV6(cfg) && f.v6, V6)
    else [System]
  }

  function Pool(cfg: Config, leg: Leg): seq<string> {
    match leg
    case V4 => cfg.poolV4
    case V6 => cfg.poolV6
    case System => [""]
  }

  /** The addresses from the start-th on, and then those before it. */
  function Rotated(ips: seq<string>, start: nat): (r: seq<string>)
    ensures |r| == |ips| && multiset(r) == multiset(ips)
  {
    if ips == [] then []
    else
      var k := start % |ips|;
      assert ips == ips[..k] + ips[k..];
      ips[k..] + ips[..k]
  }

  /** The rotation of the source addresses, from an index that the strategy picked. */
  method SelectIps(ips: seq<string>, start: nat) returns (r: seq<string>)
    ensures r == Rotated(ips, start)
  {
    r := [];
    var i := 0;
    while i < |ips|
      invariant 0 <= i <= |ips| && r == Rotated(ips, start)[..i]
    {
      WrapsOnce(start, i, |ips|);
      r := r + [ips[(start + i) % |ips|]];
      i := i + 1;
    }
  }

  /** Starting one further on moves the first address to the end; starting at 0 changes nothing. */
  lemma RotationMovesOn(ips: seq<string>, start: nat)
    requires ips != []
    ensures Rotated(ips, 0) == ips
    ensures Rotated(ips, start)[0] == ips[start % |ips|]
    ensures Rotated(ips, start + 1) == Rotated(ips, start)[1..] + [Rotated(ips, start)[0]]
  {
    var k := start % |ips|;
    NextStart(start, |ips|);
    assert (ips[k..] + ips[..k])[1..] + [ips[k]] == ips[k + 1..] + ips[..k + 1];
  }

  /** The addresses the tracker answers healthy for, in order. */
  function HealthyIps(w: World, mx: nat, leg: Leg, ips: seq<string>): seq<string> {
    if ips == [] then []
    else
      var n := |ips| - 1;
      HealthyIps(w, mx, leg, ips[..n]) + When(w.healthy(mx, leg, n), ips[n])
  }

  /** Rotated pool with degraded addresses dropped, or the whole of it when all are degraded. */
  function Candidates(cfg: Config, w: World, mx: nat, leg: Leg): seq<string> {
    var ips := Rotated(Pool(cfg, leg), w.start(mx, leg));
    var healthy := HealthyIps(w, mx, leg, ips);
    if healthy == [] then ips else healthy
  }

  function Begin(tried: seq<Site>, txns: seq<Txn>, r: Run): Run {
    r.(tried := tried + r.tried, txns := txns + r.txns)
  }

  function PoolRun(cfg: Config, w: World, mx: nat, leg: Leg, ips: seq<string>, k: nat, last: Status): Run
    decreases |ips| - k
  {
    if k >= |ips| then Run(last, [], [], false)
    else
      var site := Site(mx, leg, k);
      if w.ipCancelled(site) then Run(Timeout, [], [], false)
      else
        var (status, txns) := AttemptDelivery(cfg.proto, site, ips[k], w.attempt(site));
        if IsFinal(status) || status == Timeout then Run(status, [site], txns, IsFinal(status))
        else Begin([site], txns, PoolRun(cfg, w, mx, leg, ips, k + 1, status))
  }

  function SystemRun(cfg: Config, w: World, mx: nat): Run {
    var site := Site(mx, System, 0);
    var (status, txns) := AttemptDelivery(cfg.proto, site, "", w.attempt(site));
    Run(status, [site], txns, IsFinal(status))
  }

  function LegRun(cfg: Config, w: World, mx: nat, leg: Leg): Run {
    if leg == System then SystemRun(cfg, w, mx)
    else PoolRun(cfg, w, mx, leg, Candidates(cfg, w, mx, leg), 0, NoStatus)
  }

  function LegsRun(cfg: Config, w: World, mx: nat, legs: seq<Leg>, last: Status): Run {
    if legs == [] then Run(last, [], [], false)
    else
      var r := LegRun(cfg, w, mx, legs[0]);
      if r.stop then r else Begin(r.tried, r.txns, LegsRun(cfg, w, mx, legs[1..], r.status))
  }

  /** The MX loop from host i on; last is the result left by the hosts before it. */
  function MxRun(cfg: Config, w: World, hosts: nat, i: nat, last: Status): Run
    decreases hosts - i
  {
    if i >= hosts then Run(last, [], [], false)
    else if w.cancelled(i) then Run(Timeout, [], [], false)
    else
      match w.resolve(i)
      case None => MxRun(cfg, w, hosts, i + 1, TempFail)
      case Some(f) =>
        var r := LegsRun(cfg, w, i, Legs(cfg, f), last);
        if r.stop then r else Begin(r.tried, r.txns, MxRun(cfg, w, hosts, i + 1, r.status))
  }

  // ---------------------------------------------------------------- the loops, as the engine runs them

  /** Tries each healthy source IP of one version until a result settles the matter. */
  method TryDeliveryWithIpVersion(cfg: Config, w: World, mx: nat, leg: Leg) returns (run: Run)
    requires leg != System
    ensures run == LegRun(cfg, w, mx, leg)
  {
    hide AttemptDelivery, Candidates;
    var healthy := Candidates(cfg, w, mx, leg);
    var last, tried, txns := NoStatus, [], [];
    var k := 0;
    ghost var goal := PoolRun(cfg, w, mx, leg, healthy, 0, NoStatus);
    while k < |healthy|
      invariant 0 <= k <= |healthy|
      invariant Begin(tried, txns, PoolRun(cfg, w, mx, leg, healthy, k, last)) == goal
    {
      var site := Site(mx, leg, k);
      if w.ipCancelled(site) {
        return Run(Timeout, tried, txns, false);
      }
      var (status, more) := AttemptDelivery(cfg.proto, site, healthy[k], w.attempt(site));
      PoolStep(cfg, w, mx, leg, healthy, k, last, tried, txns);
      last, tried, txns := status, tried + [site], txns + more;
      if IsFinal(status) || status == Timeout {
        return Run(status, tried, txns, IsFinal(status));
      }
      k := k + 1;
    }
    return Run(last, tried, txns, false);
  }

  /** One turn of the source IP loop, seen from the results gathered before it. */
  lemma PoolStep(cfg: Config, w: World, mx: nat, leg: Leg, ips: seq<string>, k: nat, last: Status,
                 tried: seq<Site>, txns: seq<Txn>)
    requires k < |ips| && !w.ipCancelled(Site(mx, leg, k))
    ensures
      var site := Site(mx, leg, k);
      var (status, more) := AttemptDelivery(cfg.proto, site, ips[k], w.attempt(site));
      Begin(tried, txns, PoolRun(cfg, w, mx, leg, ips, k, last)) ==
      if IsFinal(status) || status == Timeout then Run(status, tried + [site], txns + more, IsFinal(status))
      else Begin(tried + [site], txns + more, PoolRun(cfg, w, mx, leg, ips, k + 1, status))
  {
    var site := Site(mx, leg, k);
    var (status, more) := AttemptDelivery(cfg.proto, site, ips[k], w.attempt(site));
    BeginTwice(tried, txns, [site], more, PoolRun(cfg, w, mx, leg, ips, k + 1, status));
  }

  lemma BeginTwice(tried: seq<Site>, txns: seq<Txn>, tried': seq<Site>, txns': seq<Txn>, r: Run)
    ensures Begin(tried, txns, Begin(tried', txns', r)) == Begin(tried + tried', txns + txns', r)
  {
    assert tried + (tried' + r.tried) == tried + tried' + r.tried;
    assert txns + (txns' + r.txns) == txns + txns' + r.txns;
  }

  /** The versions tried for one resolved host, in the engine's own branches; done means a final result. */
  method TryHost(cfg: Config, w: World, mx: nat, f: Families, lastResult: Status) returns (run: Run)
    ensures run == LegsRun(cfg, w, mx, Legs(cfg, f), lastResult)
  {
    var legs := Legs(cfg, f);
    run := Run(lastResult, [], [], false);
    if V6First(cfg) {
      if f.v6 {
        run := TryDeliveryWithIpVersion(cfg, w, mx, V6);
        if run.stop { return; }
      }
      if TryV4(cfg) && f.v4 {
        var r := TryDeliveryWithIpVersion(cfg, w, mx, V4);
        run := Begin(run.tried, run.txns, r);
      }
    } else if TryV4(cfg) {
      if f.v4 {
        run := TryDeliveryWithIpVersion(cfg, w, mx, V4);
        if run.stop { return; }
      }
      if TryV6(cfg) && f.v6 {
        var r := TryDeliveryWithIpVersion(cfg, w, mx, V6);
        run := Begin(run.tried, run.txns, r);
      }
    } else {
      run := SystemRun(cfg, w, mx);
    }
    LegsUnrolled(cfg, w, mx, legs, lastResult);
  }

  /** Begin with nothing behind it, and the two-version unrolling of LegsRun. */
  lemma LegsUnrolled(cfg: Config, w: World, mx: nat, legs: seq<Leg>, last: Status)
    ensures |legs| == 1 ==> LegsRun(cfg, w, mx, legs, last) == LegRun(cfg, w, mx, legs[0])
    ensures |legs| == 2 ==>
              LegsRun(cfg, w, mx, legs, last) ==
              var r := LegRun(cfg, w, mx, legs[0]);
              if r.stop then r else Begin(r.tried, r.txns, LegRun(cfg, w, mx, legs[1]))
  {
    if |legs| == 1 {
      OneLeg(cfg, w, mx, legs, last);
    } else if |legs| == 2 {
      OneLeg(cfg, w, mx, legs[1..], LegRun(cfg, w, mx, legs[0]).status);
    }
  }

  lemma OneLeg(cfg: Config, w: World, mx: nat, legs: seq<Leg>, last: Status)
    requires |legs| == 1
    ensures LegsRun(cfg, w, mx, legs, last) == LegRun(cfg, w, mx, legs[0])
  {
    var r := LegRun(cfg, w, mx, legs[0]);
    assert LegsRun(cfg, w, mx, legs[1..], r.status) == Run(r.status, [], [], false);
    assert r.tried + [] == r.tried && r.txns + [] == r.txns;
  }

  /** The MX loop of DeliverMessage. */
  method TryHosts(cfg: Config, w: World, hosts: nat) returns (run: Run)
    ensures run == MxRun(cfg, w, hosts, 0, NoStatus)
  {
    hide LegsRun, Legs;
    var last, tried, txns := NoStatus, [], [];
    var i := 0;
    ghost var goal := MxRun(cfg, w, hosts, 0, NoStatus);
    while i < hosts
      invariant 0 <= i <= hosts
      invariant Begin(tried, txns, MxRun(cfg, w, hosts, i, last)) == goal
    {
      if w.cancelled(i) {
        return Run(Timeout, tried, txns, false);
      }
      var resolved := w.resolve(i);
      if resolved.None? {
        last := TempFail;
      } else {
        var r := TryHost(cfg, w, i, resolved.value, last);
        BeginTwice(tried, txns, r.tried, r.txns, MxRun(cfg, w, hosts, i + 1, r.status));
        last, tried, txns := r.status, tried + r.tried, txns + r.txns;
        if r.stop {
          return Run(r.status, tried, txns, true);
        }
      }
      i := i + 1;
    }
    return Run(last, tried, txns, false);
  }
}
