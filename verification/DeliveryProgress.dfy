/**
 What a run really sends.  Safety alone would hold of an engine that sends nothing; here every outcome of a transaction,
 every transaction of an attempt and every status of a run is derived from the answers that caused it.
 */
module DeliveryProgress {
  import opened Common
  import opened Classifier
  import opened Delivery
  import opened DeliverySafety
  import opened DeliveryCoverage

  // ---------------------------------------------------------------- one SMTP transaction

  predicate MailBegun(s: SmtpScript) {
    !s.ctxBefore && !s.ctxMail
  }

  predicate RcptBegun(s: SmtpScript) {
    MailBegun(s) && s.mail.Accepted? && !s.ctxRcpt
  }

  predicate DataBegun(s: SmtpScript) {
    RcptBegun(s) && s.rcpt.Accepted? && !s.ctxData
  }

  predicate BodyDone(s: SmtpScript) {
    DataBegun(s) && s.data.Accepted? && s.bodyFault.None?
  }

  /** Code and text of the reply that ended the transaction, if a reply did. */
  function EndingReply(s: SmtpScript): Option<(int, string)> {
    if MailBegun(s) && s.mail.Refused? then Some((s.mail.code, s.mail.text))
    else if RcptBegun(s) && s.rcpt.Refused? then Some((s.rcpt.code, s.rcpt.text))
    else if DataBegun(s) && s.data.Refused? then Some((s.data.code, s.data.text))
    else if BodyDone(s) && s.final.Code? then Some((s.final.code, s.final.text))
    else None
  }

  /** The local address could not be bound. */
  predicate BindFailed(s: SmtpScript) {
    || (MailBegun(s) && s.mail.Broken? && s.mail.fault.bind)
    || (RcptBegun(s) && s.rcpt.Broken? && s.rcpt.fault.bind)
    || (DataBegun(s) && s.data.Broken? && s.data.fault.bind)
    || (DataBegun(s) && s.data.Accepted? && s.bodyFault.Some? && s.bodyFault.value.bind)
  }

  /** The status that a reply code calls for. */
  function StatusForCode(code: int, final: bool): Status {
    if final && code == 250 then Delivered
    else if 200 <= code < 300 then Failed
    else if code >= 500 then HardBounce
    else TempFail
  }

  /** The body is sent exactly after three accepted commands, and the first reply that is not expected decides. */
  lemma SmtpExactly(s: SmtpScript, ip: string)
    ensures
      var o, reply := SmtpTransaction(s, ip), EndingReply(s);
      && (BodySent(o) <==> BodyDone(s))
      && o.code == (if reply.Some? then reply.value.0 else 0)
      && o.status == (if reply.Some? then StatusForCode(reply.value.0, BodyDone(s))
                      else if BodyDone(s) then Unknown
                      else if BindFailed(s) then Failed
                      else Timeout)
      && (reply.Some? && o.status != Delivered ==> o.err == ClassifyError(reply.value.0, reply.value.1, ip))
      && (reply.None? && o.err.Some? ==> o.err.value.category == Network)
  {
    hide StrongListing, WeakListing, ContainsAny;
  }

  // ---------------------------------------------------------------- one LMTP transaction

  predicate LmtpRcptBegun(s: LmtpScript) {
    s.mailFault.None? && s.mail.Code? && s.mail.code == 250
  }

  predicate LmtpDataBegun(s: LmtpScript) {
    LmtpRcptBegun(s) && s.rcptFault.None? && s.rcpt.Code? && s.rcpt.code == 250
  }

  predicate LmtpBodyBegun(s: LmtpScript) {
    LmtpDataBegun(s) && s.dataFault.None? && s.data.Code? && s.data.code == 354
  }

  predicate LmtpBodyDone(s: LmtpScript) {
    LmtpBodyBegun(s) && s.bodyFault.None?
  }

  /** The code of the first reply that is not the expected one, or of the final reply. */
  function LmtpEndingCode(s: LmtpScript): Option<int> {
    if s.mailFault.None? && s.mail.Code? && s.mail.code != 250 then Some(s.mail.code)
    else if LmtpRcptBegun(s) && s.rcptFault.None? && s.rcpt.Code? && s.rcpt.code != 250 then Some(s.rcpt.code)
    else if LmtpDataBegun(s) && s.dataFault.None? && s.data.Code? && s.data.code != 354 then Some(s.data.code)
    else if LmtpBodyDone(s) && s.final.Code? then Some(s.final.code)
    else None
  }

  /** How the exchange broke, if it did before the body was done. */
  function LmtpFault(s: LmtpScript): Option<Fault> {
    if s.mailFault.Some? then s.mailFault
    else if s.mail.NoReply? then Some(s.mail.fault)
    else if LmtpRcptBegun(s) && s.rcptFault.Some? then s.rcptFault
    else if LmtpRcptBegun(s) && s.rcpt.NoReply? then Some(s.rcpt.fault)
    else if LmtpDataBegun(s) && s.dataFault.Some? then s.dataFault
    else if LmtpDataBegun(s) && s.data.NoReply? then Some(s.data.fault)
    else if LmtpBodyBegun(s) && s.bodyFault.Some? then s.bodyFault
    else None
  }

  lemma LmtpExactly(s: LmtpScript)
    ensures
      var o, code, fault := LmtpTransaction(s), LmtpEndingCode(s), LmtpFault(s);
      && (BodySent(o) <==> LmtpBodyDone(s))
      && o.code == (if code.Some? then code.value else 0)
      && (code.Some? ==>
            o.status == if 200 <= code.value < 300 then Delivered
                        else if 400 <= code.value < 500 then TempFail
                        else if 500 <= code.value < 600 then HardBounce
                        else Failed)
      && (fault.Some? ==> o.status == if fault.value.timedOut || fault.value.ctxEnded then Timeout else Failed)
      && (code.None? && fault.None? <==> o.status == Unknown)
  {
  }

  // ---------------------------------------------------------------- one attempt

  /** A pooled result that leaves the matter open, so that a fresh connection is tried. */
  predicate LeftOpen(a: AttemptScript, ip: string) {
    a.idle.None? || SmtpTransaction(a.idle.value, ip).status in {TempFail, Failed}
  }

  /**
   One SMTP attempt: a transaction on the pooled connection if there is one; another on a fresh connection if there was
   none or it left the matter open, and dialling worked.  The last of these gives the status, or the failure to dial.
   */
  lemma SmtpAttempt(site: Site, ip: string, a: AttemptScript)
    ensures
      var (status, txns) := AttemptDelivery(Smtp, site, ip, a);
      var again := LeftOpen(a, ip) && a.dial.None?;
      && |txns| == (if a.idle.Some? then 1 else 0) + (if again then 1 else 0)
      && (a.idle.Some? ==> txns[0] == Txn(site, ip, true, SmtpTransaction(a.idle.value, ip)))
      && (again ==> txns[|txns| - 1] == Txn(site, ip, false, SmtpTransaction(a.dialled, ip)))
      && (if LeftOpen(a, ip) && a.dial.Some? then status == a.dial.value
          else status == txns[|txns| - 1].out.status)
  {
    hide SmtpTransaction;
    if a.idle.Some? { PooledStatus(a.idle.value, ip); }
  }

  lemma PooledStatus(s: SmtpScript, ip: string)
    ensures KeepPooledResult(SmtpTransaction(s, ip).status) <==> SmtpTransaction(s, ip).status !in {TempFail, Failed}
  {
    SmtpOutcome(s, ip);
    match SmtpTransaction(s, ip).status
    case Delivered =>
    case HardBounce =>
    case _ =>
  }

  /** One LMTP attempt: one transaction if dialling worked, whatever is pooled. */
  lemma LmtpAttempt(site: Site, ip: string, a: AttemptScript)
    ensures
      AttemptDelivery(Lmtp, site, ip, a) ==
      if a.dial.Some? then (a.dial.value, [])
      else (LmtpTransaction(a.lmtp).status, [Txn(site, ip, false, LmtpTransaction(a.lmtp))])
  {
  }

  // ---------------------------------------------------------------- the transactions of a run

  /** The address an attempt is made from. */
  function SourceOf(cfg: Config, w: World, s: Site): string {
    if s.k < |Offered(cfg, w, s.mx, s.leg)| then Offered(cfg, w, s.mx, s.leg)[s.k] else ""
  }

  function AttemptOf(cfg: Config, w: World, s: Site): (Status, seq<Txn>) {
    AttemptDelivery(cfg.proto, s, SourceOf(cfg, w, s), w.attempt(s))
  }

  /** The transactions of the attempts at a list of sites, in order. */
  function SentAt(cfg: Config, w: World, sites: seq<Site>): seq<Txn> {
    if sites == [] then [] else AttemptOf(cfg, w, sites[0]).1 + SentAt(cfg, w, sites[1..])
  }

  lemma {:induction false} SentConcat(cfg: Config, w: World, a: seq<Site>, b: seq<Site>)
    ensures SentAt(cfg, w, a + b) == SentAt(cfg, w, a) + SentAt(cfg, w, b)
  {
    hide AttemptOf;
    if a == [] {
      assert a + b == b;
    } else {
      assert (a + b)[1..] == a[1..] + b;
      SentConcat(cfg, w, a[1..], b);
    }
  }

  predicate EndsRun(s: Status) {
    s == Delivered || s == HardBounce || s == TempFail || s == Unknown
  }

  /**
   A run holds the transactions of the attempts it made and no others.  An attempt with a final status is the last one,
   ends the run and gives its status; and a run ends early only by such an attempt.
   */
  ghost predicate Accounted(cfg: Config, w: World, r: Run) {
    && r.txns == SentAt(cfg, w, r.tried)
    && (forall a :: 0 <= a < |r.tried| && EndsRun(AttemptOf(cfg, w, r.tried[a]).0) ==>
          a == |r.tried| - 1 && r.stop && r.status == AttemptOf(cfg, w, r.tried[a]).0)
    && (r.stop ==> r.tried != [] && EndsRun(AttemptOf(cfg, w, r.tried[|r.tried| - 1]).0))
  }

  lemma BeginAccounted(cfg: Config, w: World, first: Run, r: Run)
    requires Accounted(cfg, w, first) && !first.stop && Accounted(cfg, w, r)
    ensures Accounted(cfg, w, Begin(first.tried, first.txns, r))
  {
    hide AttemptOf, SentAt;
    SentConcat(cfg, w, first.tried, r.tried);
    var all := Begin(first.tried, first.txns, r);
    forall a | 0 <= a < |all.tried| && EndsRun(AttemptOf(cfg, w, all.tried[a]).0)
      ensures a == |all.tried| - 1 && all.stop && all.status == AttemptOf(cfg, w, all.tried[a]).0
    {
      assert a >= |first.tried|;
      assert all.tried[a] == r.tried[a - |first.tried|];
    }
  }

  lemma OneAttemptAccounted(cfg: Config, w: World, s: Site)
    ensures
      var (status, txns) := AttemptOf(cfg, w, s);
      Accounted(cfg, w, Run(status, [s], txns, EndsRun(status)))
  {
    hide AttemptOf;
    assert [s][1..] == [];
    assert AttemptOf(cfg, w, s).1 + SentAt(cfg, w, []) == AttemptOf(cfg, w, s).1;
  }

  lemma {:induction false} PoolAccounted(cfg: Config, w: World, mx: nat, leg: Leg, k: nat, last: Status)
    requires leg != System
    ensures Accounted(cfg, w, PoolRun(cfg, w, mx, leg, Candidates(cfg, w, mx, leg), k, last))
    decreases |Candidates(cfg, w, mx, leg)| - k
  {
    hide AttemptDelivery, Candidates;
    var ips := Candidates(cfg, w, mx, leg);
    var site := Site(mx, leg, k);
    if k < |ips| && !w.ipCancelled(site) {
      var (status, txns) := AttemptOf(cfg, w, site);
      OneAttemptAccounted(cfg, w, site);
      if !IsFinal(status) && status != Timeout {
        PoolAccounted(cfg, w, mx, leg, k + 1, status);
        BeginAccounted(cfg, w, Run(status, [site], txns, false), PoolRun(cfg, w, mx, leg, ips, k + 1, status));
      }
    }
  }

  lemma LegAccounted(cfg: Config, w: World, mx: nat, leg: Leg)
    ensures Accounted(cfg, w, LegRun(cfg, w, mx, leg))
  {
    hide AttemptDelivery;
    if leg == System {
      OneAttemptAccounted(cfg, w, Site(mx, System, 0));
    } else {
      PoolAccounted(cfg, w, mx, leg, 0, NoStatus);
    }
  }

  lemma {:induction false} LegsAccounted(cfg: Config, w: World, mx: nat, legs: seq<Leg>, last: Status)
    ensures Accounted(cfg, w, LegsRun(cfg, w, mx, legs, last))
  {
    hide LegRun, AttemptOf;
    if legs != [] {
      LegAccounted(cfg, w, mx, legs[0]);
      var r := LegRun(cfg, w, mx, legs[0]);
      if !r.stop {
        LegsAccounted(cfg, w, mx, legs[1..], r.status);
        BeginAccounted(cfg, w, r, LegsRun(cfg, w, mx, legs[1..], r.status));
      }
    }
  }

  /** Every run accounts for what it sent and for why it ended. */
  lemma {:induction false} RunIsAccounted(cfg: Config, w: World, hosts: nat, i: nat, last: Status)
    ensures Accounted(cfg, w, MxRun(cfg, w, hosts, i, last))
    decreases hosts - i
  {
    hide LegsRun, Legs, AttemptOf;
    if i < hosts && !w.cancelled(i) {
      match w.resolve(i)
      case None => RunIsAccounted(cfg, w, hosts, i + 1, TempFail);
      case Some(f) =>
        LegsAccounted(cfg, w, i, Legs(cfg, f), last);
        var r := LegsRun(cfg, w, i, Legs(cfg, f), last);
        if !r.stop {
          RunIsAccounted(cfg, w, hosts, i + 1, r.status);
          BeginAccounted(cfg, w, r, MxRun(cfg, w, hosts, i + 1, r.status));
        }
    }
  }

  lemma {:induction false} SentHolds(cfg: Config, w: World, sites: seq<Site>, s: Site, t: Txn)
    requires s in sites && t in AttemptOf(cfg, w, s).1
    ensures t in SentAt(cfg, w, sites)
  {
    hide AttemptOf;
    if s != sites[0] {
      assert sites == [sites[0]] + sites[1..];
      SentHolds(cfg, w, sites[1..], s, t);
    }
  }

  lemma {:induction false} SentOnly(cfg: Config, w: World, sites: seq<Site>, t: Txn)
    requires t in SentAt(cfg, w, sites)
    ensures exists s :: s in sites && t in AttemptOf(cfg, w, s).1
  {
    hide AttemptOf;
    if t in AttemptOf(cfg, w, sites[0]).1 {
      assert sites[0] in sites;
    } else {
      SentOnly(cfg, w, sites[1..], t);
    }
  }

  /** No pooled connection, and none could be made. */
  predicate NoConnection(cfg: Config, w: World, s: Site) {
    w.attempt(s).dial.Some? && (cfg.proto == Lmtp || w.attempt(s).idle.None?)
  }

  lemma AttemptSends(cfg: Config, w: World, s: Site)
    ensures
      var txns := AttemptOf(cfg, w, s).1;
      && (txns == [] <==> NoConnection(cfg, w, s))
      && (forall t :: t in txns ==> t.site == s && t.sourceIp == SourceOf(cfg, w, s))
  {
    hide SmtpTransaction, LmtpTransaction, SourceOf;
    if cfg.proto == Smtp {
      SmtpAttempt(s, SourceOf(cfg, w, s), w.attempt(s));
    } else {
      LmtpAttempt(s, SourceOf(cfg, w, s), w.attempt(s));
    }
  }

  /**
   Every site tried has a transaction, made from the address offered for it, unless no connection could be had; and
   every transaction belongs to a site tried.
   */
  lemma TriedIsSent(cfg: Config, w: World, hosts: nat, s: Site)
    ensures
      var r := MxRun(cfg, w, hosts, 0, NoStatus);
      && (s in r.tried && !NoConnection(cfg, w, s) ==>
            exists t :: t in r.txns && t.site == s && t.sourceIp == SourceOf(cfg, w, s))
      && (forall t :: t in r.txns ==> t.site in r.tried && t.sourceIp == SourceOf(cfg, w, t.site))
  {
    hide MxRun, AttemptOf, SourceOf, SentAt;
    RunIsAccounted(cfg, w, hosts, 0, NoStatus);
    var r := MxRun(cfg, w, hosts, 0, NoStatus);
    if s in r.tried && !NoConnection(cfg, w, s) {
      AttemptSends(cfg, w, s);
      var t := AttemptOf(cfg, w, s).1[0];
      assert t in AttemptOf(cfg, w, s).1;
      SentHolds(cfg, w, r.tried, s, t);
    }
    forall t | t in r.txns ensures t.site in r.tried && t.sourceIp == SourceOf(cfg, w, t.site) {
      SentOnly(cfg, w, r.tried, t);
      var q :| q in r.tried && t in AttemptOf(cfg, w, q).1;
      AttemptSends(cfg, w, q);
    }
  }

  /** IPv4 attempts are made from the IPv4 pool, IPv6 attempts from the IPv6 pool, others from no given address. */
  lemma SourcesFitVersions(cfg: Config, w: World, hosts: nat, t: Txn)
    requires t in MxRun(cfg, w, hosts, 0, NoStatus).txns
    ensures t.site.leg == V4 ==> t.sourceIp in cfg.poolV4
    ensures t.site.leg == V6 ==> t.sourceIp in cfg.poolV6
    ensures t.site.leg == System ==> t.sourceIp == ""
  {
    hide MxRun, Candidates;
    TriedIsSent(cfg, w, hosts, t.site);
    MxCoverage(cfg, w, hosts, 0, NoStatus);
    assert Planned(cfg, w, hosts, t.site);
    if t.site.leg != System { CandidatesExactly(cfg, w, t.site.mx, t.site.leg, t.sourceIp); }
  }

  // ---------------------------------------------------------------- hosts in turn

  /** Whether the context had ended at one of the hosts from i up to n. */
  predicate CancelledBefore(w: World, i: nat, n: nat) {
    exists h: nat :: i <= h < n && w.cancelled(h)
  }

  /** A run over one more host: the run over the others, and then, if it has not ended, that host. */
  lemma {:induction false} HostsInTurn(cfg: Config, w: World, n: nat, i: nat, last: Status)
    requires i <= n
    ensures
      var r, next := MxRun(cfg, w, n, i, last), MxRun(cfg, w, n + 1, i, last);
      if r.stop || CancelledBefore(w, i, n) then next == r
      else if w.cancelled(n) then next == Run(Timeout, r.tried, r.txns, false)
      else if w.resolve(n).None? then next == Run(TempFail, r.tried, r.txns, false)
      else next == Begin(r.tried, r.txns, LegsRun(cfg, w, n, Legs(cfg, w.resolve(n).value), r.status))
    decreases n - i
  {
    hide LegsRun, Legs;
    if i == n {
      OneHost(cfg, w, n, last);
    } else if !w.cancelled(i) {
      match w.resolve(i)
      case None => HostsInTurn(cfg, w, n, i + 1, TempFail);
      case Some(f) =>
        var r := LegsRun(cfg, w, i, Legs(cfg, f), last);
        if !r.stop {
          HostsInTurn(cfg, w, n, i + 1, r.status);
          var rest := MxRun(cfg, w, n, i + 1, r.status);
          if w.resolve(n).Some? {
            BeginTwice(r.tried, r.txns, rest.tried, rest.txns,
                       LegsRun(cfg, w, n, Legs(cfg, w.resolve(n).value), rest.status));
          }
        }
    }
  }

  lemma OneHost(cfg: Config, w: World, n: nat, last: Status)
    ensures
      var next := MxRun(cfg, w, n + 1, n, last);
      if w.cancelled(n) then next == Run(Timeout, [], [], false)
      else if w.resolve(n).None? then next == Run(TempFail, [], [], false)
      else next == LegsRun(cfg, w, n, Legs(cfg, w.resolve(n).value), last)
    ensures MxRun(cfg, w, n, n, last) == Run(last, [], [], false)
  {
    hide LegsRun, Legs;
    if !w.cancelled(n) && w.resolve(n).Some? {
      var r := LegsRun(cfg, w, n, Legs(cfg, w.resolve(n).value), last);
      assert r.tried + [] == r.tried && r.txns + [] == r.txns;
    }
  }

  /**
   A pool that ends without a final status: its status is that of its last attempt, a timeout if the next address was
   found with the context ended, or the one before it if nothing was tried at all.
   */
  lemma {:induction false} PoolEnd(cfg: Config, w: World, mx: nat, leg: Leg, k: nat, last: Status)
    requires leg != System && k <= |Candidates(cfg, w, mx, leg)|
    requires !PoolRun(cfg, w, mx, leg, Candidates(cfg, w, mx, leg), k, last).stop
    ensures
      var ips := Candidates(cfg, w, mx, leg);
      var r := PoolRun(cfg, w, mx, leg, ips, k, last);
      var n := |r.tried|;
      && k + n <= |ips|
      && (forall j :: 0 <= j < n ==> r.tried[j] == Site(mx, leg, k + j))
      && (forall j :: 0 <= j < n - 1 ==> AttemptOf(cfg, w, r.tried[j]).0 != Timeout)
      && (if n > 0 && AttemptOf(cfg, w, r.tried[n - 1]).0 == Timeout then r.status == Timeout
          else if k + n < |ips| then w.ipCancelled(Site(mx, leg, k + n)) && r.status == Timeout
          else r.status == if n > 0 then AttemptOf(cfg, w, r.tried[n - 1]).0 else last)
    decreases |Candidates(cfg, w, mx, leg)| - k
  {
    hide AttemptDelivery, Candidates;
    var ips := Candidates(cfg, w, mx, leg);
    var site := Site(mx, leg, k);
    if k < |ips| && !w.ipCancelled(site) {
      var status := AttemptOf(cfg, w, site).0;
      if status != Timeout {
        PoolEnd(cfg, w, mx, leg, k + 1, status);
        var r := PoolRun(cfg, w, mx, leg, ips, k, last);
        var rest := PoolRun(cfg, w, mx, leg, ips, k + 1, status);
        assert r.tried == [site] + rest.tried;
      }
    }
  }

  // ---------------------------------------------------------------- a willing server

  /** The server accepts everything and takes the message. */
  predicate Willing(proto: Protocol, a: AttemptScript) {
    && a.dial.None?
    && (proto == Smtp ==> a.idle.None? && BodyDone(a.dialled) && a.dialled.final.Code? && a.dialled.final.code == 250)
    && (proto == Lmtp ==> LmtpBodyDone(a.lmtp) && a.lmtp.final.Code? && 200 <= a.lmtp.final.code < 300)
  }

  /** A message reaches the first server it can reach: one transaction, the whole body, "delivered". */
  lemma WillingServerGetsMessage(cfg: Config, w: World, hosts: nat, s: Site)
    requires hosts > 0 && !w.cancelled(0) && w.resolve(0).Some? && Legs(cfg, w.resolve(0).value) != []
    requires s == Site(0, Legs(cfg, w.resolve(0).value)[0], 0)
    requires s.leg != System ==> !w.ipCancelled(s)
    requires Willing(cfg.proto, w.attempt(s))
    ensures
      var r := MxRun(cfg, w, hosts, 0, NoStatus);
      && r.status == Delivered && r.tried == [s] && |r.txns| == 1
      && r.txns[0].site == s && r.txns[0].sourceIp == SourceOf(cfg, w, s) && PositiveEnd(cfg.proto, r.txns[0].out)
  {
    hide Candidates, SmtpTransaction, LmtpTransaction;
    var legs := Legs(cfg, w.resolve(0).value);
    WillingAttempt(cfg, w, s);
    if s.leg != System { FirstCandidate(cfg, w, 0, s.leg); }
    LegStarts(cfg, w, s);
    assert LegsRun(cfg, w, 0, legs, NoStatus) == LegRun(cfg, w, 0, legs[0]);
  }

  lemma WillingAttempt(cfg: Config, w: World, s: Site)
    requires Willing(cfg.proto, w.attempt(s))
    ensures
      var (status, txns) := AttemptOf(cfg, w, s);
      && status == Delivered && |txns| == 1 && PositiveEnd(cfg.proto, txns[0].out)
      && txns[0].site == s && txns[0].sourceIp == SourceOf(cfg, w, s)
  {
    hide SmtpTransaction, LmtpTransaction, SourceOf;
    var a, ip := w.attempt(s), SourceOf(cfg, w, s);
    if cfg.proto == Smtp {
      SmtpAttempt(s, ip, a);
      SmtpExactly(a.dialled, ip);
      SmtpOutcome(a.dialled, ip);
    } else {
      LmtpAttempt(s, ip, a);
      LmtpExactly(a.lmtp);
      LmtpOutcome(a.lmtp);
    }
  }

  lemma FirstCandidate(cfg: Config, w: World, mx: nat, leg: Leg)
    requires Pool(cfg, leg) != []
    ensures Candidates(cfg, w, mx, leg) != []
  {
    hide HealthyIps;
  }

  lemma LegStarts(cfg: Config, w: World, s: Site)
    requires s.k == 0 && (s.leg != System ==> Candidates(cfg, w, s.mx, s.leg) != [] && !w.ipCancelled(s))
    requires AttemptOf(cfg, w, s).0 == Delivered
    ensures LegRun(cfg, w, s.mx, s.leg) == Run(Delivered, [s], AttemptOf(cfg, w, s).1, true)
  {
    hide Candidates, AttemptDelivery;
  }

  // ---------------------------------------------------------------- statuses of runs

  lemma {:induction false} PoolStatuses(
      cfg: Config, w: World, mx: nat, leg: Leg, ips: seq<string>, k: nat, last: Status)
    requires last != RateLimited
    ensures PoolRun(cfg, w, mx, leg, ips, k, last).status != RateLimited
    decreases |ips| - k
  {
    hide AttemptDelivery;
    var site := Site(mx, leg, k);
    if k < |ips| && !w.ipCancelled(site) {
      AttemptInvariant(cfg.proto, w, site, ips[k]);
      PoolStatuses(cfg, w, mx, leg, ips, k + 1, AttemptDelivery(cfg.proto, site, ips[k], w.attempt(site)).0);
    }
  }

  lemma {:induction false} LegsStatuses(cfg: Config, w: World, mx: nat, legs: seq<Leg>, last: Status)
    requires last != RateLimited
    ensures LegsRun(cfg, w, mx, legs, last).status != RateLimited
  {
    hide AttemptDelivery;
    if legs != [] {
      if legs[0] == System {
        AttemptInvariant(cfg.proto, w, Site(mx, System, 0), "");
      } else {
        PoolStatuses(cfg, w, mx, legs[0], Candidates(cfg, w, mx, legs[0]), 0, NoStatus);
      }
      LegsStatuses(cfg, w, mx, legs[1..], LegRun(cfg, w, mx, legs[0]).status);
    }
  }

  /** "rate_limit" never comes from the engine. */
  lemma {:induction false} StatusesOfRuns(cfg: Config, w: World, hosts: nat, i: nat, last: Status)
    requires last != RateLimited
    ensures MxRun(cfg, w, hosts, i, last).status != RateLimited
    decreases hosts - i
  {
    hide LegsRun, Legs;
    if i < hosts && !w.cancelled(i) {
      match w.resolve(i)
      case None => StatusesOfRuns(cfg, w, hosts, i + 1, TempFail);
      case Some(f) =>
        LegsStatuses(cfg, w, i, Legs(cfg, f), last);
        StatusesOfRuns(cfg, w, hosts, i + 1, LegsRun(cfg, w, i, Legs(cfg, f), last).status);
    }
  }
}
