/** What every run of the delivery engine keeps. */
module DeliverySafety {
  import opened Common
  import opened Delivery

  // ---------------------------------------------------------------- vocabulary

  predicate BodySent(o: Outcome) {
    o.final.Some?
  }

  /** The reply to the terminating dot never came. */
  predicate ReplyLost(o: Outcome) {
    o.final.Some? && o.final.value.NoReply?
  }

  predicate Rejected(o: Outcome) {
    o.final.Some? && o.final.value.Code? && 400 <= o.final.value.code < 600
  }

  /** The server may hold a copy: it got the whole message and did not answer 4xx or 5xx. */
  predicate Holding(o: Outcome) {
    BodySent(o) && !Rejected(o)
  }

  /** Final replies after which the engine never sends again without a rejection. */
  predicate SafeCode(proto: Protocol, code: int) {
    match proto
    case Smtp => code == 250 || code >= 400
    case Lmtp => 200 <= code < 300 || 400 <= code < 600
  }

  predicate SafeReply(proto: Protocol, reply: Reply) {
    reply.Code? ==> SafeCode(proto, reply.code)
  }

  /** Statuses that end a run and, inside one, are kept even from a pooled connection. */
  predicate Settled(s: Status) {
    s in {Delivered, HardBounce, Unknown}
  }

  predicate ReplySafeAttempt(proto: Protocol, a: AttemptScript) {
    match proto
    case Smtp => SafeReply(proto, a.dialled.final) && (a.idle.Some? ==> SafeReply(proto, a.idle.value.final))
    case Lmtp => SafeReply(proto, a.lmtp.final)
  }

  /** Every final reply a server could give in this world is one of the safe ones, or is lost. */
  ghost predicate ServersConform(proto: Protocol, w: World) {
    forall site :: ReplySafeAttempt(proto, w.attempt(site))
  }

  /** The outcome is that of a transaction the world scripted at its site. */
  predicate Scripted(proto: Protocol, w: World, t: Txn) {
    var a := w.attempt(t.site);
    match proto
    case Lmtp => t.out == LmtpTransaction(a.lmtp)
    case Smtp =>
      if t.pooled then a.idle.Some? && t.out == SmtpTransaction(a.idle.value, t.sourceIp)
      else t.out == SmtpTransaction(a.dialled, t.sourceIp)
  }

  // ---------------------------------------------------------------- single transactions

  lemma SmtpOutcome(s: SmtpScript, ip: string)
    ensures
      var o := SmtpTransaction(s, ip);
      && (o.final.Some? ==> o.final.value == s.final)
      && (o.status == Unknown <==> ReplyLost(o))
      && (o.status == Delivered <==> BodySent(o) && o.final.value.Code? && o.final.value.code == 250)
      && (o.status == HardBounce <==> o.code >= 500)
      && (o.status == TempFail <==> 0 < o.code < 500 && !(200 <= o.code < 300))
      && (o.status in {Timeout, Failed} && o.code == 0 ==> !BodySent(o))
      && (o.status == Unknown ==> o.err.None?)
      && o.status !in {RateLimited, NoStatus}
  {
  }

  /** An early positive reply other than the expected one ends an LMTP transaction as "delivered". */
  predicate OddPositive(s: LmtpScript) {
    var mailOk := s.mailFault.None? && s.mail.Code?;
    var rcptOk := mailOk && s.mail.code == 250 && s.rcptFault.None? && s.rcpt.Code?;
    var dataOk := rcptOk && s.rcpt.code == 250 && s.dataFault.None? && s.data.Code?;
    || (mailOk && 200 <= s.mail.code < 300 && s.mail.code != 250)
    || (rcptOk && 200 <= s.rcpt.code < 300 && s.rcpt.code != 250)
    || (dataOk && 200 <= s.data.code < 300)
  }

  lemma LmtpOutcome(s: LmtpScript)
    ensures
      var o := LmtpTransaction(s);
      && (o.final.Some? ==> o.final.value == s.final)
      && (o.status == Unknown <==> ReplyLost(o))
      && (o.status == Delivered <==> 200 <= o.code < 300)
      && (o.status == Delivered && BodySent(o) ==> o.final.value == Code(o.code, s.final.text))
      && (o.status == Delivered && !BodySent(o) <==> OddPositive(s))
      && (o.status == HardBounce <==> 500 <= o.code < 600)
      && (o.status == TempFail <==> 400 <= o.code < 500)
      && (o.status == Timeout ==> !BodySent(o))
      && o.err.None? && o.status !in {RateLimited, NoStatus}
  {
  }

  /** The whole message was sent and its final reply was positive: 250 over SMTP, any 2xx over LMTP. */
  predicate PositiveEnd(proto: Protocol, o: Outcome) {
    && BodySent(o) && o.final.value.Code?
    && (if proto == Smtp then o.final.value.code == 250 else 200 <= o.final.value.code < 300)
  }

  /** With safe replies, a copy that may be held has a status that ends the run. */
  lemma HeldIsSettled(proto: Protocol, w: World, t: Txn)
    requires Scripted(proto, w, t) && ReplySafeAttempt(proto, w.attempt(t.site))
    ensures Holding(t.out) ==> Settled(t.out.status)
  {
    var a := w.attempt(t.site);
    match proto
    case Lmtp => LmtpOutcome(a.lmtp);
    case Smtp =>
      if t.pooled { SmtpOutcome(a.idle.value, t.sourceIp); } else { SmtpOutcome(a.dialled, t.sourceIp); }
  }

  /** A second transaction is made exactly after a pooled one that failed without settling the matter. */
  lemma PooledFallback(site: Site, ip: string, a: AttemptScript)
    ensures
      var (status, txns) := AttemptDelivery(Smtp, site, ip, a);
      && (|txns| == 2 <==>
            && a.dial.None? && a.idle.Some?
            && SmtpTransaction(a.idle.value, ip).status in {TempFail, Failed})
      && (|txns| == 2 ==> txns[0].pooled && !txns[1].pooled && status == txns[1].out.status)
      && |txns| <= 2
  {
    if a.idle.Some? { SmtpOutcome(a.idle.value, ip); }
  }

  // ---------------------------------------------------------------- the run invariant

  /** A settled transaction is the last one, ends the run and gives its status, and only such a one does. */
  ghost predicate SettledLast(status: Status, txns: seq<Txn>, stop: bool) {
    && (forall j :: 0 <= j < |txns| && Settled(txns[j].out.status) ==>
          j == |txns| - 1 && stop && status == txns[j].out.status)
    && (Settled(status) ==> stop && txns != [] && txns[|txns| - 1].out.status == status)
  }

  ghost predicate Invariant(proto: Protocol, w: World, status: Status, txns: seq<Txn>, stop: bool) {
    && (forall t :: t in txns ==> Scripted(proto, w, t))
    && SettledLast(status, txns, stop)
    && (stop ==> IsFinal(status))
  }

  ghost predicate RunInvariant(proto: Protocol, w: World, r: Run) {
    Invariant(proto, w, r.status, r.txns, r.stop)
  }

  lemma AttemptInvariant(proto: Protocol, w: World, site: Site, ip: string)
    ensures
      var (status, txns) := AttemptDelivery(proto, site, ip, w.attempt(site));
      Invariant(proto, w, status, txns, IsFinal(status)) && status !in {RateLimited, NoStatus}
  {
    var a := w.attempt(site);
    LmtpOutcome(a.lmtp);
    SmtpOutcome(a.dialled, ip);
    if a.idle.Some? { SmtpOutcome(a.idle.value, ip); }
  }

  lemma BeginInvariant(proto: Protocol, w: World, first: Run, r: Run)
    requires RunInvariant(proto, w, first) && !first.stop && RunInvariant(proto, w, r)
    ensures RunInvariant(proto, w, Begin(first.tried, first.txns, r))
  {
    var all := first.txns + r.txns;
    forall j | 0 <= j < |all| && Settled(all[j].out.status)
      ensures j == |all| - 1 && r.stop && r.status == all[j].out.status
    {
      assert j >= |first.txns|;
      assert all[j] == r.txns[j - |first.txns|];
    }
  }

  lemma {:induction false} PoolInvariant(
      cfg: Config, w: World, mx: nat, leg: Leg, ips: seq<string>, k: nat, last: Status)
    requires !IsFinal(last)
    ensures RunInvariant(cfg.proto, w, PoolRun(cfg, w, mx, leg, ips, k, last))
    decreases |ips| - k
  {
    if k < |ips| && !w.ipCancelled(Site(mx, leg, k)) {
      var site := Site(mx, leg, k);
      AttemptInvariant(cfg.proto, w, site, ips[k]);
      var (status, txns) := AttemptDelivery(cfg.proto, site, ips[k], w.attempt(site));
      if !IsFinal(status) && status != Timeout {
        PoolInvariant(cfg, w, mx, leg, ips, k + 1, status);
        BeginInvariant(cfg.proto, w, Run(status, [site], txns, false), PoolRun(cfg, w, mx, leg, ips, k + 1, status));
      }
    }
  }

  lemma LegInvariant(cfg: Config, w: World, mx: nat, leg: Leg)
    ensures RunInvariant(cfg.proto, w, LegRun(cfg, w, mx, leg))
  {
    if leg == System {
      AttemptInvariant(cfg.proto, w, Site(mx, System, 0), "");
    } else {
      PoolInvariant(cfg, w, mx, leg, Candidates(cfg, w, mx, leg), 0, NoStatus);
    }
  }

  lemma {:induction false} LegsInvariant(cfg: Config, w: World, mx: nat, legs: seq<Leg>, last: Status)
    requires !Settled(last)
    ensures RunInvariant(cfg.proto, w, LegsRun(cfg, w, mx, legs, last))
  {
    if legs != [] {
      LegInvariant(cfg, w, mx, legs[0]);
      var r := LegRun(cfg, w, mx, legs[0]);
      if !r.stop {
        LegsInvariant(cfg, w, mx, legs[1..], r.status);
        BeginInvariant(cfg.proto, w, r, LegsRun(cfg, w, mx, legs[1..], r.status));
      }
    }
  }

  lemma {:induction false} MxInvariant(cfg: Config, w: World, hosts: nat, i: nat, last: Status)
    requires !Settled(last)
    ensures RunInvariant(cfg.proto, w, MxRun(cfg, w, hosts, i, last))
    decreases hosts - i
  {
    if i < hosts && !w.cancelled(i) {
      match w.resolve(i)
      case None => MxInvariant(cfg, w, hosts, i + 1, TempFail);
      case Some(f) =>
        LegsInvariant(cfg, w, i, Legs(cfg, f), last);
        var r := LegsRun(cfg, w, i, Legs(cfg, f), last);
        if !r.stop {
          MxInvariant(cfg, w, hosts, i + 1, r.status);
          BeginInvariant(cfg.proto, w, r, MxRun(cfg, w, hosts, i + 1, r.status));
        }
    }
  }

  // ---------------------------------------------------------------- main results

  /** No transaction before the last may have left a copy, and a copy left by the last decides the status. */
  ghost predicate NoSecondCopy(r: Run) {
    && (forall j :: 0 <= j < |r.txns| - 1 ==> !Holding(r.txns[j].out))
    && (r.txns != [] && Holding(r.txns[|r.txns| - 1].out) ==>
          r.status == r.txns[|r.txns| - 1].out.status && Settled(r.status))
  }

  lemma AtMostOneCopy(cfg: Config, w: World, hosts: nat)
    requires ServersConform(cfg.proto, w)
    ensures
      var r := MxRun(cfg, w, hosts, 0, NoStatus);
      && NoSecondCopy(r)
      && (r.status in {Timeout, Failed, TempFail, NoStatus} ==> forall t :: t in r.txns ==> !Holding(t.out))
  {
    var r := MxRun(cfg, w, hosts, 0, NoStatus);
    MxInvariant(cfg, w, hosts, 0, NoStatus);
    forall j | 0 <= j < |r.txns|
      ensures Holding(r.txns[j].out) ==> Settled(r.txns[j].out.status)
    {
      assert Scripted(cfg.proto, w, r.txns[j]);
      HeldIsSettled(cfg.proto, w, r.txns[j]);
    }
  }

  /** A lost reply after the body is the last thing that happens and is reported as "unknown", whatever the replies. */
  lemma LostReplyIsUnknown(cfg: Config, w: World, hosts: nat)
    ensures
      var r := MxRun(cfg, w, hosts, 0, NoStatus);
      && (forall j :: 0 <= j < |r.txns| && ReplyLost(r.txns[j].out) ==> j == |r.txns| - 1 && r.status == Unknown)
      && (r.status == Unknown ==> r.txns != [] && ReplyLost(r.txns[|r.txns| - 1].out))
  {
    var r := MxRun(cfg, w, hosts, 0, NoStatus);
    MxInvariant(cfg, w, hosts, 0, NoStatus);
    forall j | 0 <= j < |r.txns|
      ensures ReplyLost(r.txns[j].out) <==> r.txns[j].out.status == Unknown
    {
      ScriptedFacts(cfg.proto, w, r.txns[j]);
    }
  }

  /** What a status says about the transaction that had it. */
  lemma ScriptedFacts(proto: Protocol, w: World, t: Txn)
    requires Scripted(proto, w, t)
    ensures ReplyLost(t.out) <==> t.out.status == Unknown
    ensures t.out.status == HardBounce <==> BounceCode(proto, t.out.code)
    ensures t.out.status == Delivered ==> PositiveEnd(proto, t.out) || OddPositive(w.attempt(t.site).lmtp)
    ensures proto == Smtp && t.out.status == Delivered ==> PositiveEnd(proto, t.out)
  {
    var a := w.attempt(t.site);
    LmtpOutcome(a.lmtp);
    SmtpOutcome(a.dialled, t.sourceIp);
    if a.idle.Some? { SmtpOutcome(a.idle.value, t.sourceIp); }
  }

  /** "delivered" means what it says: the last transaction sent the whole message and its final reply was positive. */
  ghost predicate SoundlyDelivered(proto: Protocol, r: Run) {
    r.status == Delivered ==> r.txns != [] && PositiveEnd(proto, r.txns[|r.txns| - 1].out)
  }

  /** "delivered": the last transaction sent the body and got 250 (SMTP) or, if no odd reply ended it early, 2xx. */
  lemma DeliveredIsSound(cfg: Config, w: World, hosts: nat)
    requires cfg.proto == Lmtp ==> forall site :: !OddPositive(w.attempt(site).lmtp)
    ensures SoundlyDelivered(cfg.proto, MxRun(cfg, w, hosts, 0, NoStatus))
  {
    hide MxRun, OddPositive;
    var r := MxRun(cfg, w, hosts, 0, NoStatus);
    MxInvariant(cfg, w, hosts, 0, NoStatus);
    if r.status == Delivered {
      var t := r.txns[|r.txns| - 1];
      assert t in r.txns;
      ScriptedFacts(cfg.proto, w, t);
    }
  }

  /** A reply that is a hard bounce: any code from 500 on over SMTP, a 5xx over LMTP. */
  predicate BounceCode(proto: Protocol, code: int) {
    500 <= code && (proto == Lmtp ==> code < 600)
  }

  /** A run that reached servers bounces hard exactly on such a reply code, given to the last transaction. */
  lemma BounceHasCode(cfg: Config, w: World, hosts: nat)
    ensures
      var r := MxRun(cfg, w, hosts, 0, NoStatus);
      r.status == HardBounce <==> r.txns != [] && BounceCode(cfg.proto, r.txns[|r.txns| - 1].out.code)
  {
    hide MxRun, OddPositive;
    var r := MxRun(cfg, w, hosts, 0, NoStatus);
    MxInvariant(cfg, w, hosts, 0, NoStatus);
    if r.txns != [] {
      var t := r.txns[|r.txns| - 1];
      assert t in r.txns;
      ScriptedFacts(cfg.proto, w, t);
    }
  }

  // ---------------------------------------------------------------- the reply hypothesis is exact

  function Plain(reply: SmtpReply): SmtpScript {
    SmtpScript(false, false, Accepted, false, Accepted, false, Accepted, None, reply)
  }

  function PlainLmtp(reply: Reply): LmtpScript {
    LmtpScript(None, Code(250, ""), None, Code(250, ""), None, Code(354, ""), None, reply)
  }

  function EchoAttempt(code: int): AttemptScript {
    var smtp: SmtpReply := if 100 <= code then Code(code, "") else Code(250, "");
    AttemptScript(Some(Plain(smtp)), None, Plain(smtp), PlainLmtp(Code(code, "")))
  }

  /** Every server takes the whole message and answers the given code. */
  function EchoWorld(code: int): World {
    World(_ => false, _ => Some(Families(true, true)), (_, _) => 0, (_, _, _) => true, _ => false,
          _ => EchoAttempt(code))
  }

  function EchoConfig(proto: Protocol): Config {
    Config(proto, Dual, false, [], [])
  }

  /** For each unsafe code, two hosts that answer it end up with two copies. */
  lemma UnsafeCodeDuplicates(proto: Protocol, code: int)
    requires !SafeCode(proto, code) && (proto == Smtp ==> 100 <= code)
    ensures !NoSecondCopy(MxRun(EchoConfig(proto), EchoWorld(code), 2, 0, NoStatus))
  {
    var cfg, w := EchoConfig(proto), EchoWorld(code);
    var r := MxRun(cfg, w, 2, 0, NoStatus);
    var legs := Legs(cfg, Families(true, true));
    LegsUnrolled(cfg, w, 0, legs, NoStatus);
    var first := SystemRun(cfg, w, 0);
    LegsUnrolled(cfg, w, 1, legs, first.status);
    if !first.stop {
      var second := SystemRun(cfg, w, 1);
      assert r == Begin(first.tried, first.txns, MxRun(cfg, w, 2, 1, first.status));
      assert second.txns <= MxRun(cfg, w, 2, 1, first.status).txns;
      assert |r.txns| >= 2;
    }
    assert Holding(r.txns[0].out);
  }

  /** Exactly the safe codes keep every run free of a second copy. */
  lemma SafeCodesAreExact(proto: Protocol, code: int)
    requires proto == Smtp ==> 100 <= code
    ensures SafeCode(proto, code) <==>
            forall cfg: Config, w: World, hosts: nat ::
              cfg.proto == proto && AllFinal(proto, w, code) ==> NoSecondCopy(MxRun(cfg, w, hosts, 0, NoStatus))
  {
    if SafeCode(proto, code) {
      forall cfg: Config, w: World, hosts: nat | cfg.proto == proto && AllFinal(proto, w, code)
        ensures NoSecondCopy(MxRun(cfg, w, hosts, 0, NoStatus))
      {
        AtMostOneCopy(cfg, w, hosts);
      }
    } else {
      UnsafeCodeDuplicates(proto, code);
      assert AllFinal(proto, EchoWorld(code), code);
    }
  }

  predicate LostOr(reply: Reply, code: int) {
    reply.Code? ==> reply.code == code
  }

  predicate FinalOnly(proto: Protocol, a: AttemptScript, code: int) {
    match proto
    case Lmtp => LostOr(a.lmtp.final, code)
    case Smtp => LostOr(a.dialled.final, code) && (a.idle.Some? ==> LostOr(a.idle.value.final, code))
  }

  /** Every final reply in this world is lost or has the given code. */
  ghost predicate AllFinal(proto: Protocol, w: World, code: int) {
    forall site :: FinalOnly(proto, w.attempt(site), code)
  }

  // ---------------------------------------------------------------- and so is that on LMTP replies

  /** Every LMTP server of this world follows the same script. */
  ghost predicate AllLmtp(w: World, s: LmtpScript) {
    forall site :: w.attempt(site).lmtp == s
  }

  function ScriptWorld(s: LmtpScript): World {
    World(_ => false, _ => Some(Families(true, true)), (_, _) => 0, (_, _, _) => true, _ => false,
          _ => AttemptScript(None, None, Plain(Code(250, "")), s))
  }

  /** A single host that follows an odd script: "delivered", and the message was not sent. */
  lemma OddScriptDeceives(s: LmtpScript)
    requires OddPositive(s)
    ensures !SoundlyDelivered(Lmtp, MxRun(EchoConfig(Lmtp), ScriptWorld(s), 1, 0, NoStatus))
  {
    var cfg, w := EchoConfig(Lmtp), ScriptWorld(s);
    LmtpOutcome(s);
    LegsUnrolled(cfg, w, 0, Legs(cfg, Families(true, true)), NoStatus);
    hide LmtpTransaction;
    var first := SystemRun(cfg, w, 0);
    assert first.status == Delivered && first.stop;
    assert MxRun(cfg, w, 1, 0, NoStatus).txns == first.txns;
  }

  /** Exactly the scripts without an odd positive reply make "delivered" sound in every LMTP run. */
  lemma OddRepliesAreExact(s: LmtpScript)
    ensures !OddPositive(s) <==>
            forall cfg: Config, w: World, hosts: nat ::
              cfg.proto == Lmtp && AllLmtp(w, s) ==> SoundlyDelivered(Lmtp, MxRun(cfg, w, hosts, 0, NoStatus))
  {
    hide MxRun, OddPositive, SoundlyDelivered;
    if OddPositive(s) {
      OddScriptDeceives(s);
      assert AllLmtp(ScriptWorld(s), s);
    } else {
      forall cfg: Config, w: World, hosts: nat | cfg.proto == Lmtp && AllLmtp(w, s)
        ensures SoundlyDelivered(Lmtp, MxRun(cfg, w, hosts, 0, NoStatus))
      {
        DeliveredIsSound(cfg, w, hosts);
      }
    }
  }
}
