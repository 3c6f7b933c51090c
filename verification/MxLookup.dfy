/** MX lookup with its cache: what a cached answer says about the DNS execution it came from. */
module MxLookup {
  import opened Common

  datatype MxRecord = MxRecord(host: string, pref: nat)

  /** A resolver's answer: records (possibly none), NXDOMAIN or NODATA, or a failure that may pass. */
  datatype Dns<T> = Found(records: seq<T>) | NotFound | Transient

  datatype LookupError = NoMxRecords | ResolverFailed | ContextEnded

  /** What Lookup returns: in Go, a record list and an error. */
  datatype Answer = Answer(records: seq<MxRecord>, err: Option<LookupError>)

  /** What DeliverMessage makes of an answer. */
  datatype Verdict = Bounce | Retry | Proceed(hosts: seq<MxRecord>)

  function Classify(a: Answer): Verdict {
    if a.err == Some(NoMxRecords) then Bounce
    else if a.err.Some? then Retry
    else if a.records == [] then Bounce
    else Proceed(a.records)
  }

  // ---------------------------------------------------------------- one DNS execution

  /** An execution of the lookup: both resolver answers, when it was stored, and the lifetimes in force then. */
  datatype Execution = Execution(
    domain: string, mx: Dns<MxRecord>, address: Dns<string>, at: int, cacheTtl: int, negativeTtl: int)

  function LookupDns(x: Execution): Answer {
    if x.mx.Transient? then Answer([], Some(ResolverFailed))
    else if x.mx.Found? && x.mx.records != [] then Answer(x.mx.records, None)
    else
      match x.address
      case NotFound => Answer([], Some(NoMxRecords))
      case Transient => Answer([], Some(ResolverFailed))
      case Found(addrs) =>
        if addrs == [] then Answer([], Some(NoMxRecords)) else Answer([MxRecord(x.domain, 0)], None)
  }

  ghost predicate Sorted(rs: seq<MxRecord>) {
    forall i, j :: 0 <= i < j < |rs| ==> rs[i].pref <= rs[j].pref
  }

  function Insert(r: MxRecord, rs: seq<MxRecord>): (out: seq<MxRecord>)
    ensures multiset(out) == multiset(rs) + multiset{r}
    ensures out[0] == r || (rs != [] && out[0] == rs[0])
  {
    if rs == [] || r.pref <= rs[0].pref then [r] + rs
    else
      assert rs == [rs[0]] + rs[1..];
      [rs[0]] + Insert(r, rs[1..])
  }

  /** Lower preference first, as the records of an answer are returned and cached. */
  function SortByPref(rs: seq<MxRecord>): (out: seq<MxRecord>)
    ensures multiset(out) == multiset(rs)
  {
    if rs == [] then []
    else
      assert rs == [rs[0]] + rs[1..];
      Insert(rs[0], SortByPref(rs[1..]))
  }

  lemma {:induction false} InsertSorts(r: MxRecord, rs: seq<MxRecord>)
    requires Sorted(rs)
    ensures Sorted(Insert(r, rs))
  {
    if rs != [] && r.pref > rs[0].pref {
      InsertSorts(r, rs[1..]);
      var rest := Insert(r, rs[1..]);
      forall j | 0 <= j < |rest| ensures rs[0].pref <= rest[j].pref {
        assert rest[0].pref <= rest[j].pref || j == 0;
      }
    }
  }

  lemma {:induction false} RecordsAreSorted(rs: seq<MxRecord>)
    ensures Sorted(SortByPref(rs)) && multiset(SortByPref(rs)) == multiset(rs)
  {
    if rs != [] {
      RecordsAreSorted(rs[1..]);
      InsertSorts(rs[0], SortByPref(rs[1..]));
    }
  }

  /** The answer the execution gives to those who waited for it. */
  function Fresh(x: Execution): Answer {
    var a := LookupDns(x);
    if a.err.None? then a.(records := SortByPref(a.records)) else a
  }

  /** Neither MX nor address records: the only permanent outcome. */
  predicate NoRoute(x: Execution) {
    && (x.mx.NotFound? || (x.mx.Found? && x.mx.records == []))
    && (x.address.NotFound? || (x.address.Found? && x.address.records == []))
  }

  lemma BouncesExactlyWithoutRoute(x: Execution)
    ensures Classify(Fresh(x)) == Bounce <==> NoRoute(x)
  {
    var a := LookupDns(x);
    if a.err.None? {
      var out := SortByPref(a.records);
      assert |multiset(out)| == |out| && |multiset(a.records)| == |a.records|;
    }
  }

  predicate HasMx(x: Execution) {
    x.mx.Found? && x.mx.records != []
  }

  /**
   Section 5.1 of RFC 5321: MX records if there are any, in order of preference; else the domain itself as the only
   host if it has an address; and a failure that may pass is never taken for an answer.
   */
  lemma FreshAnswerMeaning(x: Execution)
    ensures
      var v := Classify(Fresh(x));
      && (v == Retry <==> x.mx.Transient? || (!HasMx(x) && x.address.Transient?))
      && (HasMx(x) ==> v.Proceed? && Sorted(v.hosts) && multiset(v.hosts) == multiset(x.mx.records))
      && (v.Proceed? && !HasMx(x) ==>
            v.hosts == [MxRecord(x.domain, 0)] && x.address.Found? && x.address.records != [])
  {
    if HasMx(x) {
      RecordsAreSorted(x.mx.records);
      assert x.mx.records[0] in multiset(SortByPref(x.mx.records));
    }
  }

  // ---------------------------------------------------------------- the cache

  datatype Entry = Entry(records: seq<MxRecord>, err: Option<LookupError>, expiresAt: int)

  type Cache = map<string, Entry>

  /** A permanent failure is stored without its error, a transient one with it. */
  function EntryOf(x: Execution): Entry {
    var a := Fresh(x);
    match a.err
    case None => Entry(a.records, None, x.at + x.cacheTtl)
    case Some(NoMxRecords) => Entry([], None, x.at + x.negativeTtl)
    case Some(e) => Entry([], Some(e), x.at + x.negativeTtl)
  }

  function Load(c: Cache, domain: string, now: int): Option<Answer> {
    if domain in c && now <= c[domain].expiresAt then Some(Answer(c[domain].records, c[domain].err)) else None
  }

  function AfterLoad(c: Cache, domain: string, now: int): Cache {
    if domain in c && now > c[domain].expiresAt then c - {domain} else c
  }

  function Expire(c: Cache, now: int, todo: set<string>): Cache {
    map d | d in c && (d in todo || now <= c[d].expiresAt) :: c[d]
  }

  class MxCache {
    var cache: Cache
    var cacheTtl: int
    var negativeTtl: int

    constructor (cacheTtl: int, negativeTtl: int)
      ensures cache == map[] && this.cacheTtl == cacheTtl && this.negativeTtl == negativeTtl
    {
      cache := map[];
      this.cacheTtl, this.negativeTtl := cacheTtl, negativeTtl;
    }

    method GetFromCache(domain: string, now: int) returns (hit: Option<Answer>)
      modifies this`cache
      ensures hit == Load(old(cache), domain, now) && cache == AfterLoad(old(cache), domain, now)
      ensures hit.Some? <==> domain in old(cache) && now <= old(cache)[domain].expiresAt
      ensures cache == if hit.Some? then old(cache) else old(cache) - {domain}
    {
      if domain !in cache {
        return None;
      }
      var entry := cache[domain];
      if now > entry.expiresAt {
        cache := cache - {domain};
        return None;
      }
      return Some(Answer(entry.records, entry.err));
    }

    method StoreInCache(domain: string, records: seq<MxRecord>, err: Option<LookupError>, ttl: int, now: int)
      modifies this`cache
      ensures cache == old(cache)[domain := Entry(records, err, now + ttl)]
    {
      cache := cache[domain := Entry(records, err, now + ttl)];
    }

    /** One lookup on its own: context first, then the cache, then the resolver's answers. */
    method Lookup(ctxBefore: bool, ctxEnds: bool, domain: string, now: int,
                  mx: Dns<MxRecord>, address: Dns<string>, storedAt: int)
      returns (a: Answer, executed: bool)
      modifies this`cache
      ensures ctxBefore ==> a.err == Some(ContextEnded) && !executed && cache == old(cache)
      ensures !ctxBefore && Load(old(cache), domain, now).Some? ==>
                !executed && Some(a) == Load(old(cache), domain, now) && cache == old(cache)
      ensures !ctxBefore && Load(old(cache), domain, now).None? ==>
                var x := Execution(domain, mx, address, storedAt, cacheTtl, negativeTtl);
                && executed && cache == old(cache)[domain := EntryOf(x)]
                && a == if ctxEnds then Answer([], Some(ContextEnded)) else Fresh(x)
    {
      if ctxBefore {
        return Answer([], Some(ContextEnded)), false;
      }
      var hit := GetFromCache(domain, now);
      if hit.Some? {
        return hit.value, false;
      }
      ghost var x := Execution(domain, mx, address, storedAt, cacheTtl, negativeTtl);
      a := LookupDns(Execution(domain, mx, address, storedAt, cacheTtl, negativeTtl));
      if a.err.Some? {
        assert Fresh(x) == a;
        if a.err.value == NoMxRecords {
          StoreInCache(domain, [], None, negativeTtl, storedAt);
        } else {
          StoreInCache(domain, [], a.err, negativeTtl, storedAt);
        }
        a := Answer([], a.err);
      } else {
        var records := SortByPref(a.records);
        StoreInCache(domain, records, None, cacheTtl, storedAt);
        a := Answer(records, None);
      }
      executed := true;
      if ctxEnds {
        a := Answer([], Some(ContextEnded));
      }
    }

    method CleanupExpiredCache(now: int) returns (count: nat)
      modifies this`cache
      ensures cache == Expire(old(cache), now, {})
      ensures forall d :: d in cache <==> d in old(cache) && now <= old(cache)[d].expiresAt
      ensures forall d :: d in cache ==> d in old(cache) && cache[d] == old(cache)[d]
      ensures count == |old(cache)| - |cache|
    {
      count := 0;
      var todo := cache.Keys;
      ghost var was := cache;
      while todo != {}
        invariant todo <= was.Keys
        invariant cache == Expire(was, now, todo)
        invariant count == |was| - |cache|
        decreases |todo|
      {
        var d :| d in todo;
        if now > cache[d].expiresAt {
          ghost var before := cache;
          cache := cache - {d};
          assert cache.Keys == before.Keys - {d};
          count := count + 1;
        }
        todo := todo - {d};
      }
    }
  }

  // ---------------------------------------------------------------- runs, under any interleaving

  /**
   What the cache sees of many concurrent lookups: an execution storing its result; a load (which drops an expired
   entry); an entry deleted (an invalidation, or a load whose delete comes late and hits a newer entry); a cleanup.
   */
  datatype Action = Store(x: Execution) | LoadAt(domain: string, now: int) | Delete(domain: string) | Cleanup(now: int)

  function Apply(c: Cache, a: Action): Cache {
    match a
    case Store(x) => c[x.domain := EntryOf(x)]
    case LoadAt(domain, now) => AfterLoad(c, domain, now)
    case Delete(domain) => c - {domain}
    case Cleanup(now) => Expire(c, now, {})
  }

  function CacheAfter(run: seq<Action>, n: nat): Cache
    requires n <= |run|
  {
    if n == 0 then map[] else Apply(CacheAfter(run, n - 1), run[n - 1])
  }

  /** The last execution stored for a domain and not deleted since, among the first n actions. */
  function LastStored(run: seq<Action>, n: nat, domain: string): Option<Execution>
    requires n <= |run|
  {
    if n == 0 then None
    else
      match run[n - 1]
      case Store(x) => if x.domain == domain then Some(x) else LastStored(run, n - 1, domain)
      case Delete(d) => if d == domain then None else LastStored(run, n - 1, domain)
      case _ => LastStored(run, n - 1, domain)
  }

  lemma {:induction false} EntriesAreStored(run: seq<Action>, n: nat, domain: string)
    requires n <= |run| && domain in CacheAfter(run, n)
    ensures LastStored(run, n, domain).Some?
    ensures LastStored(run, n, domain).value.domain == domain
    ensures CacheAfter(run, n)[domain] == EntryOf(LastStored(run, n, domain).value)
  {
    hide EntryOf;
    var a := run[n - 1];
    if !(a.Store? && a.x.domain == domain) {
      EntriesAreStored(run, n - 1, domain);
    }
  }

  /** How long an execution's result may be served. */
  function Lifetime(x: Execution): int {
    if Fresh(x).err.None? then x.cacheTtl else x.negativeTtl
  }

  /** Hosts to try live as long as positive answers do, anything else as long as negative ones. */
  lemma LifetimeMeans(x: Execution)
    ensures
      var hosts := HasMx(x) || (!x.mx.Transient? && x.address.Found? && x.address.records != []);
      && Lifetime(x) == (if hosts then x.cacheTtl else x.negativeTtl)
      && EntryOf(x).expiresAt == x.at + (if hosts then x.cacheTtl else x.negativeTtl)
  {
  }

  lemma NoRouteLifetime(x: Execution)
    requires NoRoute(x)
    ensures Lifetime(x) == x.negativeTtl
  {
  }

  lemma ServedEntry(c: Cache, domain: string, now: int, x: Execution)
    requires domain in c && c[domain] == EntryOf(x) && Load(c, domain, now).Some?
    ensures Classify(Load(c, domain, now).value) == Classify(Fresh(x)) && now - x.at <= Lifetime(x)
  {
  }

  /**
   Whatever the interleaving and the clock, an answer served from the cache classifies exactly as the fresh answer of
   the last execution stored for that domain, and is no older than the lifetime of that result.
   */
  lemma CachedAnswersClassifyLikeFresh(run: seq<Action>, n: nat, domain: string, now: int)
    requires n <= |run| && Load(CacheAfter(run, n), domain, now).Some?
    ensures
      var x := LastStored(run, n, domain);
      && x.Some? && x.value.domain == domain
      && Classify(Load(CacheAfter(run, n), domain, now).value) == Classify(Fresh(x.value))
      && now - x.value.at <= Lifetime(x.value)
  {
    EntriesAreStored(run, n, domain);
    ServedEntry(CacheAfter(run, n), domain, now, LastStored(run, n, domain).value);
  }

  /** A bounce from the cache means that neither MX nor address was found, at most the negative lifetime ago. */
  lemma CachedBounceIsPermanent(run: seq<Action>, n: nat, domain: string, now: int)
    requires n <= |run| && Load(CacheAfter(run, n), domain, now).Some?
    requires Classify(Load(CacheAfter(run, n), domain, now).value) == Bounce
    ensures
      var x := LastStored(run, n, domain);
      x.Some? && x.value.domain == domain && NoRoute(x.value) && now - x.value.at <= x.value.negativeTtl
  {
    CachedAnswersClassifyLikeFresh(run, n, domain, now);
    BouncesExactlyWithoutRoute(LastStored(run, n, domain).value);
  }

  // ---------------------------------------------------------------- sequential runs: nothing is lost early

  predicate NoLaterThan(a: Action, now: int) {
    match a
    case LoadAt(_, t) => t <= now
    case Cleanup(t) => t <= now
    case _ => true
  }

  /** With a clock that has not gone back, the cache serves a domain exactly while its last result lives. */
  lemma {:induction false} ServedWhileAlive(run: seq<Action>, n: nat, domain: string, now: int)
    requires n <= |run| && forall j :: 0 <= j < n ==> NoLaterThan(run[j], now)
    ensures
      var x := LastStored(run, n, domain);
      Load(CacheAfter(run, n), domain, now).Some? <==> x.Some? && now - x.value.at <= Lifetime(x.value)
  {
    hide EntryOf, Lifetime;
    if LastStored(run, n, domain).Some? { LifetimeMeans(LastStored(run, n, domain).value); }
    if domain in CacheAfter(run, n) { EntriesAreStored(run, n, domain); }
    if n > 0 {
      ServedWhileAlive(run, n - 1, domain, now);
      if domain in CacheAfter(run, n - 1) { EntriesAreStored(run, n - 1, domain); }
    }
  }
}
