/** The engine gives up only after trying what it may: which attempts a run makes, and when it has no result at all. */
module DeliveryCoverage {
  import opened Delivery

  predicate TimesOut(cfg: Config, w: World, site: Site, ip: string) {
    AttemptDelivery(cfg.proto, site, ip, w.attempt(site)).0 == Timeout
  }

  /** Neither a cancellation nor a timeout at an earlier source IP ends the pool before index k. */
  predicate Passed(cfg: Config, w: World, mx: nat, leg: Leg, ips: seq<string>, k: nat)
    requires k <= |ips|
  {
    k == 0 ||
    (&& Passed(cfg, w, mx, leg, ips, k - 1)
     && !w.ipCancelled(Site(mx, leg, k - 1))
     && !TimesOut(cfg, w, Site(mx, leg, k - 1), ips[k - 1]))
  }

  lemma {:induction false} PassedEarlier(
      cfg: Config, w: World, mx: nat, leg: Leg, ips: seq<string>, k: nat, j: nat)
    requires k <= j <= |ips| && Passed(cfg, w, mx, leg, ips, j)
    ensures Passed(cfg, w, mx, leg, ips, k)
  {
    if k < j { PassedEarlier(cfg, w, mx, leg, ips, k, j - 1); }
  }

  /** The attempt at index k is out of reach. */
  predicate CutOff(cfg: Config, w: World, mx: nat, leg: Leg, ips: seq<string>, k: nat)
    requires k < |ips|
  {
    !Passed(cfg, w, mx, leg, ips, k) || w.ipCancelled(Site(mx, leg, k))
  }

  lemma CutOffAfter(cfg: Config, w: World, mx: nat, leg: Leg, ips: seq<string>, k: nat)
    requires k <= |ips| && !Passed(cfg, w, mx, leg, ips, k)
    ensures forall j: nat :: k <= j < |ips| ==> CutOff(cfg, w, mx, leg, ips, j)
  {
    forall j: nat | k <= j < |ips|
      ensures CutOff(cfg, w, mx, leg, ips, j)
    {
      if Passed(cfg, w, mx, leg, ips, j) { PassedEarlier(cfg, w, mx, leg, ips, k, j); }
    }
  }

  /** In a pool that ends without a final result, exactly the attempts that are not cut off are made. */
  lemma {:induction false} PoolCoverage(
      cfg: Config, w: World, mx: nat, leg: Leg, ips: seq<string>, k: nat, last: Status)
    requires k <= |ips| && Passed(cfg, w, mx, leg, ips, k)
    ensures
      var r := PoolRun(cfg, w, mx, leg, ips, k, last);
      && (forall s :: s in r.tried ==> s.mx == mx && s.leg == leg && k <= s.k < |ips|)
      && (!r.stop ==> forall j: nat :: k <= j < |ips| ==>
                        (Site(mx, leg, j) in r.tried <==> !CutOff(cfg, w, mx, leg, ips, j)))
    decreases |ips| - k
  {
    hide AttemptDelivery;
    if k < |ips| {
      if Passed(cfg, w, mx, leg, ips, k + 1) {
        var site := Site(mx, leg, k);
        var (status, txns) := AttemptDelivery(cfg.proto, site, ips[k], w.attempt(site));
        PoolCoverage(cfg, w, mx, leg, ips, k + 1, status);
      } else {
        CutOffAfter(cfg, w, mx, leg, ips, k + 1);
      }
    }
  }

  /** Site s is planned: its host resolved, its version is tried for that host, its index is a candidate's. */
  ghost predicate Planned(cfg: Config, w: World, hosts: nat, s: Site) {
    && s.mx < hosts
    && w.resolve(s.mx).Some?
    && s.leg in Legs(cfg, w.resolve(s.mx).value)
    && s.k < |Offered(cfg, w, s.mx, s.leg)|
  }

  function Offered(cfg: Config, w: World, mx: nat, leg: Leg): seq<string> {
    if leg == System then [""] else Candidates(cfg, w, mx, leg)
  }

  /** A planned site the run passes over because its pool was cut off before it. */
  predicate Skipped(cfg: Config, w: World, s: Site)
    requires s.k < |Offered(cfg, w, s.mx, s.leg)|
  {
    s.leg != System && CutOff(cfg, w, s.mx, s.leg, Offered(cfg, w, s.mx, s.leg), s.k)
  }

  lemma LegCoverage(cfg: Config, w: World, mx: nat, leg: Leg)
    ensures
      var r := LegRun(cfg, w, mx, leg);
      && (forall s :: s in r.tried ==> s.mx == mx && s.leg == leg && s.k < |Offered(cfg, w, mx, leg)|)
      && (!r.stop ==> forall j: nat :: j < |Offered(cfg, w, mx, leg)| ==>
                        (Site(mx, leg, j) in r.tried <==> !Skipped(cfg, w, Site(mx, leg, j))))
  {
    if leg != System {
      PoolCoverage(cfg, w, mx, leg, Candidates(cfg, w, mx, leg), 0, NoStatus);
    }
  }

  lemma {:induction false} LegsCoverage(cfg: Config, w: World, mx: nat, legs: seq<Leg>, last: Status)
    requires forall a, b :: 0 <= a < b < |legs| ==> legs[a] != legs[b]
    ensures
      var r := LegsRun(cfg, w, mx, legs, last);
      && (forall s :: s in r.tried ==> s.mx == mx && s.leg in legs && s.k < |Offered(cfg, w, mx, s.leg)|)
      && (!r.stop ==> forall leg, j: nat :: leg in legs && j < |Offered(cfg, w, mx, leg)| ==>
                        (Site(mx, leg, j) in r.tried <==> !Skipped(cfg, w, Site(mx, leg, j))))
  {
    if legs != [] {
      LegCoverage(cfg, w, mx, legs[0]);
      var r := LegRun(cfg, w, mx, legs[0]);
      if !r.stop {
        LegsCoverage(cfg, w, mx, legs[1..], r.status);
        var rest := LegsRun(cfg, w, mx, legs[1..], r.status);
        var all := LegsRun(cfg, w, mx, legs, last);
        assert all.tried == r.tried + rest.tried;
        assert legs == [legs[0]] + legs[1..];
        assert legs[0] !in legs[1..];
      }
    }
  }

  lemma LegsDistinct(cfg: Config, f: Families)
    ensures forall a, b :: 0 <= a < b < |Legs(cfg, f)| ==> Legs(cfg, f)[a] != Legs(cfg, f)[b]
  {
  }

  lemma {:induction false} MxCoverage(cfg: Config, w: World, hosts: nat, i: nat, last: Status)
    ensures
      var r := MxRun(cfg, w, hosts, i, last);
      && (forall s :: s in r.tried ==> i <= s.mx && Planned(cfg, w, hosts, s))
      && (!r.stop && (forall h: nat :: h < hosts ==> !w.cancelled(h)) ==>
            forall s :: Planned(cfg, w, hosts, s) && i <= s.mx ==> (s in r.tried <==> !Skipped(cfg, w, s)))
    decreases hosts - i
  {
    hide LegsRun, Legs;
    var all := MxRun(cfg, w, hosts, i, last);
    if i < hosts && !w.cancelled(i) {
      match w.resolve(i)
      case None => MxCoverage(cfg, w, hosts, i + 1, TempFail);
      case Some(f) =>
        LegsDistinct(cfg, f);
        LegsCoverage(cfg, w, i, Legs(cfg, f), last);
        var r := LegsRun(cfg, w, i, Legs(cfg, f), last);
        if !r.stop {
          MxCoverage(cfg, w, hosts, i + 1, r.status);
          var rest := MxRun(cfg, w, hosts, i + 1, r.status);
          assert all.tried == r.tried + rest.tried;
          forall s | Planned(cfg, w, hosts, s) && i == s.mx
            ensures !all.stop ==> (s in all.tried <==> !Skipped(cfg, w, s))
          {
            assert s == Site(i, s.leg, s.k);
          }
        }
    }
  }

  /**
   A run that ends without a final result, in a context that was live at every host, tried every source IP of every
   usable version of every host that resolved, except those behind a timeout or cancellation in the same pool.
   */
  lemma NothingLeftUntried(cfg: Config, w: World, hosts: nat)
    requires forall h: nat :: h < hosts ==> !w.cancelled(h)
    ensures
      var r := MxRun(cfg, w, hosts, 0, NoStatus);
      && (forall s :: s in r.tried ==> Planned(cfg, w, hosts, s))
      && (!r.stop ==> forall s :: Planned(cfg, w, hosts, s) ==> (s in r.tried <==> !Skipped(cfg, w, s)))
  {
    MxCoverage(cfg, w, hosts, 0, NoStatus);
  }

  /**
   Which versions are tried, read off the configuration.  An IPv6 pool is passed over, in favour of the system default,
   when it is the only one and IPv6 is not preferred.
   */
  lemma LegsMatchConfig(cfg: Config, f: Families)
    ensures
      var legs := Legs(cfg, f);
      var use4 := cfg.proto == Smtp && cfg.poolV4 != [] && (cfg.mode == Dual || cfg.mode == V4Only);
      var use6 := cfg.proto == Smtp && cfg.poolV6 != [] && (cfg.mode == Dual || cfg.mode == V6Only);
      var first6 := use6 && (cfg.mode == V6Only || cfg.preferV6);
      && (V4 in legs <==> use4 && f.v4)
      && (V6 in legs <==> use6 && f.v6 && (use4 || first6))
      && (System in legs <==> !use4 && !first6)
      && (V4 in legs && V6 in legs ==> legs == if first6 then [V6, V4] else [V4, V6])
      && (System in legs ==> legs == [System])
  {
  }

  // ---------------------------------------------------------------- order

  /** In the order of the plan: by host, then by version as listed for the host, then by source IP. */
  ghost predicate Earlier(legs: seq<Leg>, s: Site, t: Site) {
    || s.mx < t.mx
    || (s.mx == t.mx && s.leg == t.leg && s.k < t.k)
    || (s.mx == t.mx && exists i, j :: 0 <= i < j < |legs| && legs[i] == s.leg && legs[j] == t.leg)
  }

  predicate OfPool(tried: seq<Site>, mx: nat, leg: Leg, k: nat) {
    forall a :: 0 <= a < |tried| ==> tried[a].mx == mx && tried[a].leg == leg && k <= tried[a].k
  }

  predicate Ascending(tried: seq<Site>) {
    forall a, b :: 0 <= a < b < |tried| ==> tried[a].k < tried[b].k
  }

  lemma {:induction false} PoolInOrder(
      cfg: Config, w: World, mx: nat, leg: Leg, ips: seq<string>, k: nat, last: Status)
    ensures OfPool(PoolRun(cfg, w, mx, leg, ips, k, last).tried, mx, leg, k)
    ensures Ascending(PoolRun(cfg, w, mx, leg, ips, k, last).tried)
    decreases |ips| - k
  {
    hide AttemptDelivery;
    var site := Site(mx, leg, k);
    if k < |ips| && !w.ipCancelled(site) {
      var status := AttemptDelivery(cfg.proto, site, ips[k], w.attempt(site)).0;
      PoolInOrder(cfg, w, mx, leg, ips, k + 1, status);
      var rest := PoolRun(cfg, w, mx, leg, ips, k + 1, status).tried;
      assert OfPool([site] + rest, mx, leg, k) && Ascending([site] + rest);
    }
  }

  lemma LegInOrder(cfg: Config, w: World, mx: nat, leg: Leg)
    ensures OfPool(LegRun(cfg, w, mx, leg).tried, mx, leg, 0) && Ascending(LegRun(cfg, w, mx, leg).tried)
  {
    if leg != System { PoolInOrder(cfg, w, mx, leg, Candidates(cfg, w, mx, leg), 0, NoStatus); }
  }

  ghost predicate InOrder(legs: seq<Leg>, mx: nat, tried: seq<Site>) {
    && (forall a :: 0 <= a < |tried| ==> tried[a].mx == mx)
    && (forall a, b :: 0 <= a < b < |tried| ==> Earlier(legs, tried[a], tried[b]))
  }

  lemma LegsInOrder(cfg: Config, w: World, mx: nat, legs: seq<Leg>, last: Status)
    requires |legs| <= 2
    ensures InOrder(legs, mx, LegsRun(cfg, w, mx, legs, last).tried)
  {
    hide LegRun, LegsRun;
    LegsUnrolled(cfg, w, mx, legs, last);
    if legs == [] {
      NoLegs(cfg, w, mx, last);
    } else {
      LegInOrder(cfg, w, mx, legs[0]);
      if |legs| == 2 {
        LegInOrder(cfg, w, mx, legs[1]);
        TwoPools(legs, mx, LegRun(cfg, w, mx, legs[0]).tried, LegRun(cfg, w, mx, legs[1]).tried);
      }
    }
  }

  lemma TwoPools(legs: seq<Leg>, mx: nat, s: seq<Site>, t: seq<Site>)
    requires |legs| == 2
    requires OfPool(s, mx, legs[0], 0) && Ascending(s) && OfPool(t, mx, legs[1], 0) && Ascending(t)
    ensures InOrder(legs, mx, s + t) && InOrder(legs, mx, s)
  {
  }

  lemma NoLegs(cfg: Config, w: World, mx: nat, last: Status)
    ensures LegsRun(cfg, w, mx, [], last).tried == []
  {
  }

  function LegsAt(cfg: Config, w: World, mx: nat): seq<Leg> {
    if w.resolve(mx).Some? then Legs(cfg, w.resolve(mx).value) else []
  }

  ghost predicate InPlanOrder(cfg: Config, w: World, tried: seq<Site>, i: nat) {
    && (forall a :: 0 <= a < |tried| ==> i <= tried[a].mx)
    && (forall a, b :: 0 <= a < b < |tried| ==> Earlier(LegsAt(cfg, w, tried[a].mx), tried[a], tried[b]))
  }

  lemma ThenLaterHosts(cfg: Config, w: World, i: nat, s: seq<Site>, t: seq<Site>)
    requires InOrder(LegsAt(cfg, w, i), i, s) && InPlanOrder(cfg, w, t, i + 1)
    ensures InPlanOrder(cfg, w, s + t, i)
  {
    hide LegsAt;
  }

  lemma {:induction false} MxInOrder(cfg: Config, w: World, hosts: nat, i: nat, last: Status)
    ensures InPlanOrder(cfg, w, MxRun(cfg, w, hosts, i, last).tried, i)
    decreases hosts - i
  {
    hide LegsRun, Legs, Earlier;
    if i < hosts && !w.cancelled(i) {
      match w.resolve(i)
      case None => MxInOrder(cfg, w, hosts, i + 1, TempFail);
      case Some(f) =>
        AtMostTwoLegs(cfg, f);
        LegsInOrder(cfg, w, i, Legs(cfg, f), last);
        var r := LegsRun(cfg, w, i, Legs(cfg, f), last);
        ThenLaterHosts(cfg, w, i, r.tried, []);
        assert r.tried + [] == r.tried;
        if !r.stop {
          MxInOrder(cfg, w, hosts, i + 1, r.status);
          ThenLaterHosts(cfg, w, i, r.tried, MxRun(cfg, w, hosts, i + 1, r.status).tried);
        }
    }
  }

  lemma AtMostTwoLegs(cfg: Config, f: Families)
    ensures |Legs(cfg, f)| <= 2
  {
  }

  /** Attempts are made in the order of the plan, so no attempt is made twice. */
  lemma TriedInOrder(cfg: Config, w: World, hosts: nat, a: nat, b: nat)
    requires a < b < |MxRun(cfg, w, hosts, 0, NoStatus).tried|
    ensures
      var tried := MxRun(cfg, w, hosts, 0, NoStatus).tried;
      Earlier(LegsAt(cfg, w, tried[a].mx), tried[a], tried[b]) && tried[a] != tried[b]
  {
    hide MxRun;
    MxInOrder(cfg, w, hosts, 0, NoStatus);
    var tried := MxRun(cfg, w, hosts, 0, NoStatus).tried;
    if w.resolve(tried[a].mx).Some? { LegsDistinct(cfg, w.resolve(tried[a].mx).value); }
  }

  // ---------------------------------------------------------------- addresses

  predicate NoRepetition(ips: seq<string>) {
    forall i, j :: 0 <= i < j < |ips| ==> ips[i] != ips[j]
  }

  /** Nothing occurs in the list more than once. */
  ghost predicate CountedOnce(ips: seq<string>) {
    forall ip :: multiset(ips)[ip] <= 1
  }

  lemma Appended(init: seq<string>, last: string)
    ensures NoRepetition(init + [last]) <==> NoRepetition(init) && last !in init
    ensures CountedOnce(init + [last]) <==> CountedOnce(init) && last !in init
  {
    var ips := init + [last];
    assert forall ip :: multiset(ips)[ip] == multiset(init)[ip] + if ip == last then 1 else 0;
    assert last in init <==> multiset(init)[last] > 0;
    assert forall i :: 0 <= i < |init| ==> ips[i] == init[i];
    if NoRepetition(ips) { assert forall i :: 0 <= i < |init| ==> ips[i] != ips[|init|]; }
    if CountedOnce(ips) {
      assert multiset(ips)[last] <= 1;
      forall ip ensures multiset(init)[ip] <= 1 { assert multiset(ips)[ip] <= 1; }
    }
  }

  lemma {:induction false} RepetitionIsCounted(ips: seq<string>)
    ensures NoRepetition(ips) <==> CountedOnce(ips)
  {
    if ips != [] {
      var n := |ips| - 1;
      RepetitionIsCounted(ips[..n]);
      Appended(ips[..n], ips[n]);
      assert ips == ips[..n] + [ips[n]];
    }
  }

  /** Filtering keeps nothing that was not there. */
  lemma {:induction false} HealthyAreOffered(w: World, mx: nat, leg: Leg, ips: seq<string>)
    ensures multiset(HealthyIps(w, mx, leg, ips)) <= multiset(ips)
  {
    if ips != [] {
      var n := |ips| - 1;
      HealthyAreOffered(w, mx, leg, ips[..n]);
      assert ips == ips[..n] + [ips[n]];
      assert multiset(ips) == multiset(ips[..n]) + multiset{ips[n]};
    }
  }

  /** Exactly the addresses with a healthy answer pass. */
  lemma {:induction false} HealthyExactly(w: World, mx: nat, leg: Leg, ips: seq<string>, ip: string)
    ensures ip in HealthyIps(w, mx, leg, ips) <==> exists i :: 0 <= i < |ips| && w.healthy(mx, leg, i) && ips[i] == ip
  {
    if ips != [] {
      var n := |ips| - 1;
      HealthyExactly(w, mx, leg, ips[..n], ip);
      assert forall i :: 0 <= i < n ==> ips[..n][i] == ips[i];
    }
  }

  /** The order is kept: what passes of the beginning of a list is the beginning of what passes. */
  lemma {:induction false} HealthyInOrder(w: World, mx: nat, leg: Leg, ips: seq<string>, n: nat)
    requires n <= |ips|
    ensures HealthyIps(w, mx, leg, ips[..n]) <= HealthyIps(w, mx, leg, ips)
  {
    if n == |ips| {
      assert ips[..n] == ips;
    } else {
      HealthyInOrder(w, mx, leg, ips[..|ips| - 1], n);
      assert ips[..|ips| - 1][..n] == ips[..n];
    }
  }

  /** The candidates of a version are addresses of its pool, none more often than the pool has it. */
  lemma CandidatesAreOfThePool(cfg: Config, w: World, mx: nat, leg: Leg)
    ensures multiset(Candidates(cfg, w, mx, leg)) <= multiset(Pool(cfg, leg))
  {
    hide Rotated, HealthyIps;
    HealthyAreOffered(w, mx, leg, Rotated(Pool(cfg, leg), w.start(mx, leg)));
  }

  lemma CandidatesAreDistinct(cfg: Config, w: World, mx: nat, leg: Leg)
    requires NoRepetition(Pool(cfg, leg))
    ensures NoRepetition(Candidates(cfg, w, mx, leg))
  {
    hide Candidates;
    var pool, candidates := Pool(cfg, leg), Candidates(cfg, w, mx, leg);
    CandidatesAreOfThePool(cfg, w, mx, leg);
    RepetitionIsCounted(pool);
    RepetitionIsCounted(candidates);
    forall ip ensures multiset(candidates)[ip] <= 1 {
      assert multiset(pool)[ip] <= 1;
    }
  }

  lemma {:induction false} AllPass(w: World, mx: nat, leg: Leg, ips: seq<string>)
    requires forall i :: 0 <= i < |ips| ==> w.healthy(mx, leg, i)
    ensures HealthyIps(w, mx, leg, ips) == ips
  {
    if ips != [] {
      AllPass(w, mx, leg, ips[..|ips| - 1]);
      assert ips == ips[..|ips| - 1] + [ips[|ips| - 1]];
    }
  }

  /** When all addresses are answered healthy, or none is, the candidates are the rotated pool as it stands. */
  lemma AllOrNone(cfg: Config, w: World, mx: nat, leg: Leg)
    requires
      var n := |Pool(cfg, leg)|;
      (forall i :: 0 <= i < n ==> w.healthy(mx, leg, i)) || (forall i :: 0 <= i < n ==> !w.healthy(mx, leg, i))
    ensures Candidates(cfg, w, mx, leg) == Rotated(Pool(cfg, leg), w.start(mx, leg))
  {
    hide HealthyIps, Rotated;
    var ips := Rotated(Pool(cfg, leg), w.start(mx, leg));
    if forall i :: 0 <= i < |ips| ==> w.healthy(mx, leg, i) {
      AllPass(w, mx, leg, ips);
    } else {
      var healthy := HealthyIps(w, mx, leg, ips);
      if healthy != [] { HealthyExactly(w, mx, leg, ips, healthy[0]); }
    }
  }

  /** An address of the pool is a candidate exactly when it was answered healthy somewhere, or none was. */
  lemma CandidatesExactly(cfg: Config, w: World, mx: nat, leg: Leg, ip: string)
    ensures
      var ips := Rotated(Pool(cfg, leg), w.start(mx, leg));
      ip in Candidates(cfg, w, mx, leg) <==>
        && ip in Pool(cfg, leg)
        && (|| (exists i :: 0 <= i < |ips| && w.healthy(mx, leg, i) && ips[i] == ip)
            || (forall i :: 0 <= i < |ips| ==> !w.healthy(mx, leg, i)))
  {
    hide Rotated, HealthyIps;
    var pool := Pool(cfg, leg);
    var ips := Rotated(pool, w.start(mx, leg));
    assert ip in pool <==> ip in multiset(pool);
    assert ip in ips <==> ip in multiset(ips);
    HealthyExactly(w, mx, leg, ips, ip);
    var healthy := HealthyIps(w, mx, leg, ips);
    if healthy == [] {
      forall i | 0 <= i < |ips| ensures !w.healthy(mx, leg, i) { HealthyExactly(w, mx, leg, ips, ips[i]); }
    } else {
      HealthyExactly(w, mx, leg, ips, healthy[0]);
    }
  }

  /** The source address of an attempt. */
  function AddressOf(cfg: Config, w: World, s: Site): string
    requires s.k < |Offered(cfg, w, s.mx, s.leg)|
  {
    Offered(cfg, w, s.mx, s.leg)[s.k]
  }

  /** With pools that repeat nothing, no host is tried twice over one version from the same address. */
  lemma NoAddressTwice(cfg: Config, w: World, hosts: nat, a: nat, b: nat)
    requires NoRepetition(cfg.poolV4) && NoRepetition(cfg.poolV6)
    requires a < b < |MxRun(cfg, w, hosts, 0, NoStatus).tried|
    ensures
      var tried := MxRun(cfg, w, hosts, 0, NoStatus).tried;
      && tried[a].k < |Offered(cfg, w, tried[a].mx, tried[a].leg)|
      && tried[b].k < |Offered(cfg, w, tried[b].mx, tried[b].leg)|
      && (tried[a].mx == tried[b].mx && tried[a].leg == tried[b].leg ==>
            AddressOf(cfg, w, tried[a]) != AddressOf(cfg, w, tried[b]))
  {
    hide MxRun, Candidates;
    var tried := MxRun(cfg, w, hosts, 0, NoStatus).tried;
    MxCoverage(cfg, w, hosts, 0, NoStatus);
    assert Planned(cfg, w, hosts, tried[a]) && Planned(cfg, w, hosts, tried[b]);
    TriedInOrder(cfg, w, hosts, a, b);
    if tried[a].leg != System { CandidatesAreDistinct(cfg, w, tried[a].mx, tried[a].leg); }
  }

  // ---------------------------------------------------------------- the empty status

  lemma {:induction false} PoolHasStatus(
      cfg: Config, w: World, mx: nat, leg: Leg, ips: seq<string>, k: nat, last: Status)
    requires k < |ips| || last != NoStatus
    ensures PoolRun(cfg, w, mx, leg, ips, k, last).status != NoStatus
    decreases |ips| - k
  {
    if k < |ips| && !w.ipCancelled(Site(mx, leg, k)) {
      var (status, txns) := AttemptDelivery(cfg.proto, Site(mx, leg, k), ips[k], w.attempt(Site(mx, leg, k)));
      PoolHasStatus(cfg, w, mx, leg, ips, k + 1, status);
    }
  }

  lemma LegHasStatus(cfg: Config, w: World, mx: nat, leg: Leg)
    requires Pool(cfg, leg) != []
    ensures LegRun(cfg, w, mx, leg).status != NoStatus
  {
    if leg != System {
      PoolHasStatus(cfg, w, mx, leg, Candidates(cfg, w, mx, leg), 0, NoStatus);
    }
  }

  /** No version can be tried for this host: it resolved, but to families the configured pools do not cover. */
  predicate NoVersionFits(cfg: Config, w: World, i: nat) {
    !w.cancelled(i) && w.resolve(i).Some? && Legs(cfg, w.resolve(i).value) == []
  }

  lemma HostStatus(cfg: Config, w: World, i: nat, f: Families, last: Status)
    ensures LegsRun(cfg, w, i, Legs(cfg, f), last).status == NoStatus <==> last == NoStatus && Legs(cfg, f) == []
    ensures Legs(cfg, f) == [] ==> !LegsRun(cfg, w, i, Legs(cfg, f), last).stop
  {
    var legs := Legs(cfg, f);
    LegsUnrolled(cfg, w, i, legs, last);
    if legs != [] { LegHasStatus(cfg, w, i, legs[0]); }
    if |legs| == 2 { LegHasStatus(cfg, w, i, legs[1]); }
  }

  lemma {:induction false} StatusFrom(cfg: Config, w: World, hosts: nat, i: nat, last: Status)
    ensures MxRun(cfg, w, hosts, i, last).status == NoStatus <==>
            last == NoStatus && NoVersionFitsFrom(cfg, w, hosts, i)
    decreases hosts - i
  {
    if i < hosts && !w.cancelled(i) {
      match w.resolve(i)
      case None => StatusFrom(cfg, w, hosts, i + 1, TempFail);
      case Some(f) =>
        HostStatus(cfg, w, i, f, last);
        StatusFrom(cfg, w, hosts, i + 1, LegsRun(cfg, w, i, Legs(cfg, f), last).status);
    }
  }

  predicate NoVersionFitsFrom(cfg: Config, w: World, hosts: nat, i: nat)
    decreases hosts - i
  {
    i < hosts ==> NoVersionFits(cfg, w, i) && NoVersionFitsFrom(cfg, w, hosts, i + 1)
  }

  lemma {:induction false} NoVersionFitsAll(cfg: Config, w: World, hosts: nat, i: nat)
    ensures NoVersionFitsFrom(cfg, w, hosts, i) <==> forall h: nat :: i <= h < hosts ==> NoVersionFits(cfg, w, h)
    decreases hosts - i
  {
    if i < hosts { NoVersionFitsAll(cfg, w, hosts, i + 1); }
  }

  /** The engine returns an empty status exactly when no host can be tried with any version. */
  lemma EmptyStatusIff(cfg: Config, w: World, hosts: nat)
    ensures MxRun(cfg, w, hosts, 0, NoStatus).status == NoStatus <==>
            forall h: nat :: h < hosts ==> NoVersionFits(cfg, w, h)
  {
    StatusFrom(cfg, w, hosts, 0, NoStatus);
    NoVersionFitsAll(cfg, w, hosts, 0);
  }
}
