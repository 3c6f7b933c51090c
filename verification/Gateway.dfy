/** DeliverMessage as a whole: recipient check, rate limit and signing gate, mail route, then the delivery engine. */
module Gateway {
  import opened Common
  import opened Delivery
  import opened DeliverySafety
  import DeliveryProgress
  import opened MxLookup
  import MxService
  import Classifier
  import Reputation

  /** Outcome of the checks before routing: the per-domain limiter and the sender check of DKIM signing. */
  datatype Gate = Pass | OverLimit | LimiterFault | BadDkimSender

  /** A configured destination, a configured one that does not parse, or the answer of the MX lookup. */
  datatype Route = FixedHost | BadFixedHost | Looked(answer: Answer)

  /** The text after the last '@', or nothing. */
  function DomainOf(email: string): (d: string)
    ensures '@' !in d
    ensures '@' !in email ==> d == ""
    ensures '@' in email ==> exists i :: 0 <= i < |email| && email[i] == '@' && d == email[i + 1..]
  {
    if '@' !in email then ""
    else if email[0] == '@' && '@' !in email[1..] then email[1..]
    else
      assert email == [email[0]] + email[1..];
      var d := DomainOf(email[1..]);
      assert forall i :: 0 <= i < |email[1..]| ==>
                           email[1..][i] == email[i + 1] && email[1..][i + 1..] == email[i + 2..];
      d
  }

  function Ended(s: Status): Run {
    Run(s, [], [], true)
  }

  function Deliver(to: string, gate: Gate, route: Route, cfg: Config, w: World): Run {
    if DomainOf(to) == "" then Ended(HardBounce)
    else if gate.OverLimit? then Ended(RateLimited)
    else if gate.LimiterFault? then Ended(Timeout)
    else if gate.BadDkimSender? then Ended(Failed)
    else
      match route
      case BadFixedHost => Ended(Failed)
      case FixedHost => MxRun(cfg, w, 1, 0, NoStatus)
      case Looked(answer) =>
        match Classify(answer)
        case Bounce => Ended(HardBounce)
        case Retry => Ended(TempFail)
        case Proceed(hosts) => MxRun(cfg, w, |hosts|, 0, NoStatus)
  }

  method DeliverMessage(to: string, gate: Gate, route: Route, cfg: Config, w: World) returns (run: Run)
    ensures run == Deliver(to, gate, route, cfg, w)
    ensures ServersConform(cfg.proto, w) ==> NoSecondCopy(run)
    ensures ServersConform(cfg.proto, w) && !Settled(run.status) ==> forall t :: t in run.txns ==> !Holding(t.out)
  {
    hide MxRun, NoSecondCopy, Holding;
    OneCopyOverall(to, gate, route, cfg, w);
    if DomainOf(to) == "" {
      return Ended(HardBounce);
    }
    match gate
    case OverLimit => return Ended(RateLimited);
    case LimiterFault => return Ended(Timeout);
    case BadDkimSender => return Ended(Failed);
    case Pass =>
    var hosts := 1;
    match route {
      case BadFixedHost => return Ended(Failed);
      case FixedHost =>
      case Looked(answer) =>
        if answer.err.Some? {
          if answer.err.value == NoMxRecords {
            return Ended(HardBounce);
          }
          return Ended(TempFail);
        }
        if |answer.records| == 0 {
          return Ended(HardBounce);
        }
        hosts := |answer.records|;
    }
    run := TryHosts(cfg, w, hosts);
  }

  /** The one-copy guarantee of the engine, for the whole of DeliverMessage. */
  lemma OneCopyOverall(to: string, gate: Gate, route: Route, cfg: Config, w: World)
    ensures
      var r := Deliver(to, gate, route, cfg, w);
      ServersConform(cfg.proto, w) ==>
        NoSecondCopy(r) && (!Settled(r.status) ==> forall t :: t in r.txns ==> !Holding(t.out))
  {
    hide MxRun;
    if ServersConform(cfg.proto, w) {
      AtMostOneCopy(cfg, w, 1);
      if route.Looked? && Classify(route.answer).Proceed? {
        AtMostOneCopy(cfg, w, |Classify(route.answer).hosts|);
      }
    }
  }

  /** The route is the answer that caller id of Lookup got for the domain, in a run of all the callers. */
  ghost predicate LookedUp(actions: seq<MxService.Action>, id: nat, domain: string, answer: Answer) {
    var y := MxService.Run(actions);
    id in y.callers && y.callers[id].Answered? && y.callers[id].domain == domain && y.callers[id].answer == answer
  }

  /**
   In this run, the resolver answers r for the domain held neither MX nor address; if the caller found that in the cache
   it was at most the negative lifetime old, otherwise the caller joined the execution that got them.
   */
  ghost predicate NoRouteFound(actions: seq<MxService.Action>, id: nat, r: MxService.Resolved) {
    var y := MxService.Run(actions);
    && MxService.HasAnswer(y, id) && MxService.InRun(actions, r) && r.x.domain == y.callers[id].domain && NoRoute(r.x)
    && MxService.InTime(y, id, r)
    && (y.callers[id].source.Cached? ==> y.callers[id].source.now - r.x.at <= r.x.negativeTtl)
  }

  /** A looked-up route bounces exactly when the execution behind the answer found no route. */
  lemma BounceIsBacked(actions: seq<MxService.Action>, id: nat, domain: string, answer: Answer)
    requires LookedUp(actions, id, domain, answer)
    ensures Classify(answer) == Bounce <==> exists r :: NoRouteFound(actions, id, r) && MxService.Backs(actions, id, r)
  {
    hide MxService.Run;
    var y := MxService.Run(actions);
    if MxService.HasAnswer(y, id) {
      var r := MxService.AnswersAreBacked(actions, id);
      BouncesExactlyWithoutRoute(r.x);
      if NoRoute(r.x) {
        NoRouteLifetime(r.x);
        assert NoRouteFound(actions, id, r);
      }
    } else {
      MxService.ContextAnswers(actions, id);
    }
    forall r | NoRouteFound(actions, id, r) && MxService.Backs(actions, id, r) ensures Classify(answer) == Bounce {
      BouncesExactlyWithoutRoute(r.x);
    }
  }

  /** The looked-up answer goes back to an execution of this run that found no route. */
  ghost predicate BackedBounce(actions: seq<MxService.Action>, id: nat) {
    exists r :: NoRouteFound(actions, id, r) && MxService.Backs(actions, id, r)
  }

  /**
   A hard bounce is never the work of a passing failure, and always of a lasting one.  Over all interleavings of
   lookups, expiries, cleanups and cancellations there is one exactly when the recipient has no domain, or resolver
   answers in this very run held no route, or the last transaction was refused for good.
   */
  lemma HardBouncesAreEarned(
      to: string, gate: Gate, route: Route, cfg: Config, w: World, actions: seq<MxService.Action>, id: nat)
    requires route.Looked? ==> LookedUp(actions, id, DomainOf(to), route.answer)
    ensures
      var r := Deliver(to, gate, route, cfg, w);
      r.status == HardBounce <==>
        || DomainOf(to) == ""
        || (gate.Pass? && route.Looked? && BackedBounce(actions, id))
        || (r.txns != [] && BounceCode(cfg.proto, r.txns[|r.txns| - 1].out.code))
  {
    hide MxRun, BackedBounce, LookedUp;
    BounceHasCode(cfg, w, 1);
    if DomainOf(to) != "" && route.Looked? {
      LookedUpBounce(actions, id, DomainOf(to), route.answer);
      if Classify(route.answer).Proceed? {
        BounceHasCode(cfg, w, |Classify(route.answer).hosts|);
      }
    }
  }

  lemma LookedUpBounce(actions: seq<MxService.Action>, id: nat, domain: string, answer: Answer)
    requires LookedUp(actions, id, domain, answer)
    ensures Classify(answer) == Bounce <==> BackedBounce(actions, id)
  {
    hide LookedUp, NoRouteFound, MxService.Backs;
    BounceIsBacked(actions, id, domain, answer);
  }

  /** The checks before routing, each with the status it ends in; nothing is sent. */
  lemma ChecksComeFirst(to: string, gate: Gate, route: Route, cfg: Config, w: World)
    ensures
      var r := Deliver(to, gate, route, cfg, w);
      && (DomainOf(to) == "" ==> r == Run(HardBounce, [], [], true))
      && (DomainOf(to) != "" && gate.OverLimit? ==> r == Run(RateLimited, [], [], true))
      && (DomainOf(to) != "" && gate.LimiterFault? ==> r == Run(Timeout, [], [], true))
      && (DomainOf(to) != "" && gate.BadDkimSender? ==> r == Run(Failed, [], [], true))
      && (DomainOf(to) != "" && gate.Pass? && route.BadFixedHost? ==> r == Run(Failed, [], [], true))
      && (DomainOf(to) != "" && gate.Pass? && route.FixedHost? ==> r == MxRun(cfg, w, 1, 0, NoStatus))
      && (r.status == RateLimited ==> DomainOf(to) != "" && gate.OverLimit?)
  {
    hide MxRun;
    DeliveryProgress.StatusesOfRuns(cfg, w, 1, 0, NoStatus);
    if route.Looked? && Classify(route.answer).Proceed? {
      DeliveryProgress.StatusesOfRuns(cfg, w, |Classify(route.answer).hosts|, 0, NoStatus);
    }
  }

  /** How many hosts the resolver answers of an execution give: its MX records, or the domain itself. */
  function HostCount(x: Execution): nat {
    if HasMx(x) then |x.mx.records| else 1
  }

  predicate FailedForNow(x: Execution) {
    x.mx.Transient? || (!HasMx(x) && x.address.Transient?)
  }

  /**
   What a lookup leads to, told from the execution behind its answer: nothing is sent and the message may be tried again
   after a failure that may pass or an ended context; it bounces without a route; otherwise every host is up for trial.
   */
  lemma LookupsLeadOn(
      to: string, route: Route, cfg: Config, w: World, actions: seq<MxService.Action>, id: nat, r: MxService.Resolved)
    requires DomainOf(to) != "" && route.Looked? && LookedUp(actions, id, DomainOf(to), route.answer)
    requires MxService.HasAnswer(MxService.Run(actions), id) ==> MxService.Backs(actions, id, r)
    ensures
      Deliver(to, Pass, route, cfg, w) ==
      if !MxService.HasAnswer(MxService.Run(actions), id) || FailedForNow(r.x) then Run(TempFail, [], [], true)
      else if NoRoute(r.x) then Run(HardBounce, [], [], true)
      else MxRun(cfg, w, HostCount(r.x), 0, NoStatus)
  {
    hide MxRun, MxService.Run, MxService.InTime;
    if MxService.HasAnswer(MxService.Run(actions), id) {
      BouncesExactlyWithoutRoute(r.x);
      FreshAnswerMeaning(r.x);
      if HasMx(r.x) { SameSize(Classify(Fresh(r.x)).hosts, r.x.mx.records); }
    } else {
      MxService.ContextAnswers(actions, id);
    }
  }

  lemma SameSize(a: seq<MxRecord>, b: seq<MxRecord>)
    requires multiset(a) == multiset(b)
    ensures |a| == |b|
  {
    assert |multiset(a)| == |a| && |multiset(b)| == |b|;
  }

  /**
   What reaches the IP reputation tracker: a success only with "delivered", a strong or weak signal only with a reply
   code, a weak one only with a 5xx; in particular an "unknown" outcome is neutral.
   */
  lemma SignalsComeFromReplies(proto: Protocol, w: World, t: Txn)
    requires Scripted(proto, w, t)
    ensures
      var signal := Reputation.SignalOf(t.out.status == Delivered, t.out.err);
      && (signal == Reputation.Success <==> t.out.status == Delivered)
      && (signal in {Reputation.Strong, Reputation.Weak} ==>
            t.out.code >= 100 && t.out.status in {HardBounce, TempFail})
      && (signal == Reputation.Weak ==> 500 <= t.out.code < 600)
      && (t.out.status == Unknown ==> signal == Reputation.Neutral)
  {
    var a := w.attempt(t.site);
    match proto
    case Lmtp => LmtpOutcome(a.lmtp);
    case Smtp => if t.pooled { SmtpSignal(a.idle.value, t.sourceIp); } else { SmtpSignal(a.dialled, t.sourceIp); }
  }

  lemma SmtpSignal(s: SmtpScript, ip: string)
    ensures
      var o := SmtpTransaction(s, ip);
      && (o.err.Some? && o.err.value.category == Classifier.Reputation ==>
            && o.code >= 100 && o.status in {HardBounce, TempFail}
            && (o.err.value.immediateDegrade || 500 <= o.code < 600))
      && (o.status in {Delivered, Unknown} ==> o.err.None?)
  {
    hide Classifier.StrongListing, Classifier.HasIpScopedSignal, ContainsAny;
  }

  /** One of the phrases stands in the text, in upper or lower case. */
  ghost predicate Mentions(text: string, phrases: seq<string>) {
    exists i :: 0 <= i < |phrases| && Within(phrases[i], ToLower(text))
  }

  /** The text speaks of the sending address, by quoting it or by one of the phrases that mean it. */
  ghost predicate MentionsAddress(text: string, ip: string) {
    (ip != "" && Within(ToLower(ip), ToLower(text))) || Mentions(text, Classifier.IP_SIGNALS)
  }

  lemma MentionsAny(text: string, phrases: seq<string>)
    ensures ContainsAny(ToLower(text), phrases) <==> Mentions(text, phrases)
  {
    hide Contains, Within;
    forall i | 0 <= i < |phrases| ensures Contains(ToLower(text), phrases[i]) <==> Within(phrases[i], ToLower(text)) {
      ContainsMeans(ToLower(text), phrases[i]);
    }
  }

  /**
   Exactly which SMTP outcomes tell the tracker what.  A success is a success.  A reply that names a blocklist degrades
   at once, at any code but a 2xx; one that only sounds like it counts as a weak signal if it is a 5xx and speaks of the
   sending address.  Everything else says nothing about the address.
   */
  lemma SignalsExactly(s: SmtpScript, ip: string)
    ensures
      var o, reply := SmtpTransaction(s, ip), DeliveryProgress.EndingReply(s);
      var signal := Reputation.SignalOf(o.status == Delivered, o.err);
      var refused := reply.Some? && !(200 <= reply.value.0 < 300);
      && (signal == Reputation.Success <==> o.status == Delivered)
      && (signal == Reputation.Strong <==> refused && Mentions(reply.value.1, Classifier.STRONG_KEYWORDS))
      && (signal == Reputation.Weak <==>
            && refused && 500 <= reply.value.0 < 600 && !Mentions(reply.value.1, Classifier.STRONG_KEYWORDS)
            && Mentions(reply.value.1, Classifier.WEAK_KEYWORDS) && MentionsAddress(reply.value.1, ip))
  {
    hide SmtpTransaction, Mentions, Within, Contains, ContainsAny;
    DeliveryProgress.SmtpExactly(s, ip);
    SmtpOutcome(s, ip);
    var reply := DeliveryProgress.EndingReply(s);
    if reply.Some? {
      var text := reply.value.1;
      MentionsAny(text, Classifier.STRONG_KEYWORDS);
      MentionsAny(text, Classifier.WEAK_KEYWORDS);
      MentionsAny(text, Classifier.IP_SIGNALS);
      ContainsMeans(ToLower(text), ToLower(ip));
    }
  }
}
