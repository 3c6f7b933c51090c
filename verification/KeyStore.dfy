/** The cache of DKIM keys: eviction when full, and transparency of lookups. */
module KeyStore {
  import opened Common

  const POSITIVE_TTL: int := 3600
  const NEGATIVE_TTL: int := 300
  const DEFAULT_SIZE: nat := 20000

  datatype Entry = Entry(keyPem: string, found: bool, expires: int)

  type Cache = map<string, Entry>

  function ExpiredKeys(c: Cache, now: int): set<string> {
    set k | k in c && now > c[k].expires
  }

  function NegativeKeys(c: Cache): set<string> {
    set k | k in c && !c[k].found
  }

  /**
   What storing into a full cache may evict, whatever the order in which the map is walked: all expired entries if
   there are any; otherwise a single entry, a negative one as long as there is one.
   */
  ghost predicate FairEviction(c: Cache, now: int, evicted: set<string>) {
    if ExpiredKeys(c, now) != {} then evicted == ExpiredKeys(c, now)
    else exists k :: k in c && evicted == {k} && (NegativeKeys(c) != {} ==> !c[k].found)
  }

  /** Only expired entries go while there are any, and no positive entry goes while there is a negative one. */
  lemma EvictionMeans(c: Cache, now: int, evicted: set<string>)
    requires FairEviction(c, now, evicted)
    ensures (exists k :: k in c && now > c[k].expires) ==>
              forall k :: k in evicted <==> k in c && now > c[k].expires
    ensures (forall k :: k in c ==> now <= c[k].expires) ==>
              |evicted| == 1 && forall k :: k in evicted ==>
                k in c && (c[k].found ==> forall other :: other in c ==> c[other].found)
  {
    if k :| k in c && now > c[k].expires {
      assert k in ExpiredKeys(c, now);
    } else {
      assert ExpiredKeys(c, now) == {};
      forall k, other | k in evicted && c[k].found && other in c ensures c[other].found {
        assert other in NegativeKeys(c) <==> !c[other].found;
      }
    }
  }

  predicate SafePathComponent(s: string) {
    s != "" && '/' !in s && '\\' !in s && !Contains(s, "..")
  }

  function CacheKey(selector: string, domain: string): string {
    selector + "/" + domain
  }

  lemma CacheKeyIsInjective(s: string, d: string, s': string, d': string)
    requires '/' !in s && '/' !in s' && CacheKey(s, d) == CacheKey(s', d')
    ensures s == s' && d == d'
  {
    var k := CacheKey(s, d);
    assert k[|s|] == '/' && k[|s'|] == '/';
    assert k[..|s|] == s && k[..|s'|] == s';
    assert k[|s| + 1..] == d && k[|s'| + 1..] == d';
  }

  /** The usable key files: PEM text by selector and domain, None for one that is missing, unreadable or invalid. */
  type Files = (string, string) -> Option<string>

  datatype Found = Found(keyPem: string, selector: string, found: bool)

  function Normal(domain: string): string {
    ToLower(Trim(domain, IsSpace))
  }

  function SelectorFor(selectors: map<string, string>, fallback: string, domain: string): string {
    if domain in selectors && selectors[domain] != "" then selectors[domain] else fallback
  }

  /** What a lookup gives when it reads the file every time. */
  function Direct(selectors: map<string, string>, fallback: string, files: Files, domain: string): Found {
    var d := Normal(domain);
    var s := SelectorFor(selectors, fallback, d);
    if !SafePathComponent(d) || !SafePathComponent(s) then Found("", "", false)
    else
      match files(s, d)
      case None => Found("", "", false)
      case Some(pem) => Found(pem, s, true)
  }

  /** A name is safe in a path if it is not empty and holds neither a slash nor a backslash nor two dots in a row. */
  lemma SafeMeans(s: string)
    ensures SafePathComponent(s) <==> s != "" && '/' !in s && '\\' !in s && !Within("..", s)
  {
    ContainsMeans(s, "..");
  }

  /** A domain is looked up in lower case and without the spaces around it. */
  lemma NormalMeans(domain: string) returns (i: nat, j: nat)
    ensures i <= j <= |domain| && Normal(domain) == ToLower(domain[i..j])
    ensures forall k :: 0 <= k < i || j <= k < |domain| ==> IsSpace(domain[k])
    ensures i < j ==> !IsSpace(domain[i]) && !IsSpace(domain[j - 1])
  {
    i, j := TrimMeans(domain, IsSpace);
  }

  /** A key is found exactly for safe names with a usable file; the selector is that of the domain, or the fallback. */
  lemma FoundMeans(selectors: map<string, string>, fallback: string, files: Files, domain: string)
    ensures
      var d := Normal(domain);
      var s := if d in selectors && selectors[d] != "" then selectors[d] else fallback;
      var r := Direct(selectors, fallback, files, domain);
      && (r.found <==>
            && d != "" && '/' !in d && '\\' !in d && !Within("..", d)
            && s != "" && '/' !in s && '\\' !in s && !Within("..", s) && files(s, d).Some?)
      && (r.found ==> r == Found(files(s, d).value, s, true))
  {
    hide Contains, Within, Normal;
    var d := Normal(domain);
    SafeMeans(d);
    SafeMeans(SelectorFor(selectors, fallback, d));
  }

  /** Every cached entry says what its file says. */
  ghost predicate Faithful(c: Cache, files: Files) {
    forall s, d :: SafePathComponent(s) && CacheKey(s, d) in c ==>
      c[CacheKey(s, d)].found == files(s, d).Some? &&
      (files(s, d).Some? ==> c[CacheKey(s, d)].keyPem == files(s, d).value)
  }

  class Store {
    const cacheSize: nat
    const fallbackSelector: string
    const selectors: map<string, string>
    var cache: Cache

    ghost predicate Valid()
      reads this
    {
      cacheSize >= 1 && |cache| <= cacheSize
    }

    constructor (cacheSize: int, fallbackSelector: string, selectors: map<string, string>)
      ensures Valid() && cache == map[] && this.cacheSize == (if cacheSize <= 0 then 20000 else cacheSize)
      ensures this.fallbackSelector == fallbackSelector && this.selectors == selectors
    {
      this.cacheSize := if cacheSize <= 0 then DEFAULT_SIZE else cacheSize;
      this.fallbackSelector, this.selectors := fallbackSelector, selectors;
      cache := map[];
    }

    /** The first eviction loop: every expired entry goes. */
    method DropExpired(now: int)
      modifies this`cache
      ensures cache == old(cache) - ExpiredKeys(old(cache), now)
    {
      var todo := cache.Keys;
      ghost var was := cache;
      while todo != {}
        invariant todo <= was.Keys
        invariant cache == was - (ExpiredKeys(was, now) - todo)
        decreases |todo|
      {
        var k :| k in todo;
        if now > cache[k].expires {
          cache := cache - {k};
        }
        todo := todo - {k};
      }
    }

    /** The second loop: negative entries go until the cache is no longer full. */
    method DropNegatives() returns (ghost gone: set<string>)
      requires Valid() && |cache| == cacheSize
      modifies this`cache
      ensures cache == old(cache) - gone
      ensures NegativeKeys(old(cache)) == {} ==> gone == {}
      ensures NegativeKeys(old(cache)) != {} ==>
                |cache| == cacheSize - 1 && exists k :: k in old(cache) && gone == {k} && !old(cache)[k].found
    {
      var todo := cache.Keys;
      ghost var was := cache;
      gone := {};
      while todo != {} && |cache| >= cacheSize
        invariant todo <= was.Keys && cache == was - gone
        invariant gone == {} ==> NegativeKeys(was) <= todo
        invariant gone != {} ==> |cache| == cacheSize - 1 && exists k :: k in was && gone == {k} && !was[k].found
        decreases |todo|
      {
        assert gone == {} && cache == was;
        var k :| k in todo;
        if !cache[k].found {
          cache := cache - {k};
          gone := {k};
          assert cache.Keys == was.Keys - {k};
        }
        todo := todo - {k};
      }
    }

    /** The third loop: arbitrary entries go until the cache is no longer full. */
    method DropAny() returns (ghost gone: set<string>)
      requires Valid() && |cache| == cacheSize
      modifies this`cache
      ensures cache == old(cache) - gone && |cache| == cacheSize - 1
      ensures exists k :: k in old(cache) && gone == {k}
    {
      var todo := cache.Keys;
      ghost var was := cache;
      gone := {};
      while todo != {} && |cache| >= cacheSize
        invariant todo <= was.Keys && cache == was - gone
        invariant gone == {} ==> todo == was.Keys
        invariant gone != {} ==> |cache| == cacheSize - 1 && exists k :: k in was && gone == {k}
        decreases |todo|
      {
        var k :| k in todo;
        cache := cache - {k};
        gone := {k};
        assert cache.Keys == was.Keys - {k};
        todo := todo - {k};
      }
      assert |was.Keys| == |was|;
    }

    method StoreCacheEntry(key: string, entry: Entry, now: int) returns (ghost evicted: set<string>)
      requires Valid()
      modifies this`cache
      ensures Valid()
      ensures cache == (old(cache) - evicted)[key := entry]
      ensures |old(cache)| < cacheSize ==> evicted == {}
      ensures |old(cache)| == cacheSize ==> FairEviction(old(cache), now, evicted)
    {
      evicted := {};
      ghost var was := cache;
      assert was - {} == was;
      if |cache| >= cacheSize {
        DropExpired(now);
        evicted := ExpiredKeys(was, now);
        if |cache| >= cacheSize {
          AllKept(was, evicted);
          assert cache == was;
          evicted := DropNegatives();
          if |cache| >= cacheSize {
            evicted := DropAny();
          }
        }
      }
      AddsOne(cache, key, entry);
      cache := cache[key := entry];
    }

    /** The key and selector for a domain; the cached answer if it is still fresh, else what the file gives. */
    method Lookup(domain: string, files: Files, now: int, storedAt: int) returns (r: Found)
      requires Valid()
      modifies this`cache
      ensures Valid()
      ensures Faithful(old(cache), files) ==>
                var direct := Direct(selectors, fallbackSelector, files, domain);
                Faithful(cache, files) && r.found == direct.found && (r.found ==> r == direct)
      ensures
        var d := Normal(domain);
        var s := SelectorFor(selectors, fallbackSelector, d);
        var key := CacheKey(s, d);
        if !SafePathComponent(d) || !SafePathComponent(s) then r == Found("", "", false) && cache == old(cache)
        else if key in old(cache) && now < old(cache)[key].expires then
          r == Found(old(cache)[key].keyPem, s, old(cache)[key].found) && cache == old(cache)
        else
          && r == Direct(selectors, fallbackSelector, files, domain)
          && key in cache && cache[key] == Entry(r.keyPem, r.found, now + if r.found then 3600 else 300)
    {
      hide Contains, FairEviction;
      var d := Normal(domain);
      if d == "" || !SafePathComponent(d) {
        return Found("", "", false);
      }
      var selector := if d in selectors then selectors[d] else "";
      if selector == "" {
        selector := fallbackSelector;
      }
      if selector == "" || !SafePathComponent(selector) {
        return Found("", "", false);
      }
      var key := CacheKey(selector, d);
      if key in cache && now < cache[key].expires {
        return Found(cache[key].keyPem, selector, cache[key].found);
      }
      var pem := files(selector, d);
      var entry := match pem
        case None => Entry("", false, now + NEGATIVE_TTL)
        case Some(text) => Entry(text, true, now + POSITIVE_TTL);
      ghost var was := cache;
      ghost var evicted := StoreCacheEntry(key, entry, storedAt);
      if Faithful(was, files) { StillFaithful(was, evicted, files, selector, d, entry); }
      if pem.None? {
        return Found("", "", false);
      }
      return Found(pem.value, selector, true);
    }
  }

  lemma AllKept(c: Cache, gone: set<string>)
    requires gone <= c.Keys && |c - gone| >= |c|
    ensures gone == {}
  {
    assert (c - gone).Keys == c.Keys - gone;
    assert |c.Keys - gone| + |gone| == |(c.Keys - gone) + gone|;
    assert (c.Keys - gone) + gone == c.Keys;
  }

  lemma AddsOne(c: Cache, key: string, entry: Entry)
    ensures |c[key := entry]| <= |c| + 1
  {
    assert c[key := entry].Keys == c.Keys + {key};
    assert |c.Keys + {key}| <= |c.Keys| + 1;
  }

  /** Evicting entries and storing what a file says keeps the cache faithful, since no other pair has its key. */
  lemma StillFaithful(c: Cache, evicted: set<string>, files: Files, selector: string, domain: string, entry: Entry)
    requires Faithful(c, files) && SafePathComponent(selector)
    requires entry.found == files(selector, domain).Some?
    requires files(selector, domain).Some? ==> entry.keyPem == files(selector, domain).value
    ensures Faithful((c - evicted)[CacheKey(selector, domain) := entry], files)
  {
    hide Contains, CacheKey;
    var c' := (c - evicted)[CacheKey(selector, domain) := entry];
    forall s, d | SafePathComponent(s) && CacheKey(s, d) in c'
      ensures c'[CacheKey(s, d)].found == files(s, d).Some?
      ensures files(s, d).Some? ==> c'[CacheKey(s, d)].keyPem == files(s, d).value
    {
      if CacheKey(s, d) == CacheKey(selector, domain) { CacheKeyIsInjective(s, d, selector, domain); }
    }
  }

  // ---------------------------------------------------------------- many lookups at once

  datatype Setup = Setup(cacheSize: nat, selectors: map<string, string>, fallback: string, files: Files)

  /** A lookup that missed reads the file with no lock held, then stores what it found. */
  datatype Pc =
    | Missed(domain: string, selector: string, name: string, now: int)
    | Returned(domain: string, result: Found)

  datatype System = System(cache: Cache, callers: map<nat, Pc>)

  /** The two locked sections of a lookup.  evicted is what the iteration order makes the second one drop. */
  datatype Action = Begin(id: nat, domain: string, now: int) | Finish(id: nat, storedAt: int, evicted: set<string>)

  ghost predicate MayEvict(size: nat, c: Cache, now: int, evicted: set<string>) {
    if |c| < size then evicted == {} else FairEviction(c, now, evicted)
  }

  function FirstSection(u: Setup, c: Cache, domain: string, now: int): Pc {
    var d := Normal(domain);
    var s := SelectorFor(u.selectors, u.fallback, d);
    if !SafePathComponent(d) || !SafePathComponent(s) then Returned(domain, Found("", "", false))
    else
      var key := CacheKey(s, d);
      if key in c && now < c[key].expires then Returned(domain, Found(c[key].keyPem, s, c[key].found))
      else Missed(domain, s, d, now)
  }

  function FileEntry(u: Setup, pc: Pc): Entry
    requires pc.Missed?
  {
    match u.files(pc.selector, pc.name)
    case None => Entry("", false, pc.now + NEGATIVE_TTL)
    case Some(text) => Entry(text, true, pc.now + POSITIVE_TTL)
  }

  ghost function Apply(u: Setup, y: System, a: Action): System {
    match a
    case Begin(id, domain, now) =>
      if id in y.callers then y else y.(callers := y.callers[id := FirstSection(u, y.cache, domain, now)])
    case Finish(id, storedAt, evicted) =>
      if id !in y.callers || !y.callers[id].Missed? || !MayEvict(u.cacheSize, y.cache, storedAt, evicted) then y
      else
        var pc := y.callers[id];
        var e := FileEntry(u, pc);
        var found := if e.found then Found(e.keyPem, pc.selector, true) else Found("", "", false);
        System((y.cache - evicted)[CacheKey(pc.selector, pc.name) := e], y.callers[id := Returned(pc.domain, found)])
  }

  ghost function Run(u: Setup, actions: seq<Action>): System {
    if actions == [] then System(map[], map[])
    else Apply(u, Run(u, actions[..|actions| - 1]), actions[|actions| - 1])
  }

  predicate AnswersLikeFile(u: Setup, domain: string, r: Found) {
    var direct := Direct(u.selectors, u.fallback, u.files, domain);
    r.found == direct.found && (r.found ==> r == direct)
  }

  /** A lookup under way is about a name and selector of its own domain; one that has returned is right. */
  ghost predicate CallerOk(u: Setup, y: System, id: nat) {
    id in y.callers ==>
      match y.callers[id]
      case Missed(domain, s, d, _) =>
        && d == Normal(domain) && s == SelectorFor(u.selectors, u.fallback, d)
        && SafePathComponent(d) && SafePathComponent(s)
      case Returned(domain, r) => AnswersLikeFile(u, domain, r)
  }

  ghost predicate Invariant(u: Setup, y: System) {
    |y.cache| <= u.cacheSize && Faithful(y.cache, u.files) && forall id :: CallerOk(u, y, id)
  }

  lemma FirstSectionOk(u: Setup, y: System, id: nat, domain: string, now: int)
    requires Faithful(y.cache, u.files)
    ensures CallerOk(u, y.(callers := y.callers[id := FirstSection(u, y.cache, domain, now)]), id)
  {
    hide Contains, CacheKey;
  }

  /** Room is made for the new entry. */
  lemma EvictionMakesRoom(size: nat, c: Cache, now: int, evicted: set<string>, key: string, e: Entry)
    requires size >= 1 && |c| <= size && MayEvict(size, c, now, evicted)
    ensures |(c - evicted)[key := e]| <= size
  {
    AddsOne(c - evicted, key, e);
    if |c| < size {
      assert c - {} == c;
    } else {
      var k :| k in c && k in evicted by {
        if ExpiredKeys(c, now) != {} { var k :| k in ExpiredKeys(c, now); }
      }
      assert (c - evicted).Keys <= c.Keys - {k};
      Subset((c - evicted).Keys, c.Keys - {k});
    }
  }

  lemma Subset(a: set<string>, b: set<string>)
    requires a <= b
    ensures |a| <= |b|
  {
    assert |a| + |b - a| == |a + (b - a)|;
    assert a + (b - a) == b;
  }

  lemma StepKeeps(u: Setup, y: System, a: Action)
    requires u.cacheSize >= 1 && Invariant(u, y)
    ensures Invariant(u, Apply(u, y, a))
  {
    hide Contains, CacheKey, MayEvict, Faithful, Normal, SelectorFor, SafePathComponent;
    var y' := Apply(u, y, a);
    assert CallerOk(u, y, a.id);
    if a.Begin? {
      FirstSectionOk(u, y, a.id, a.domain, a.now);
    } else if y' != y {
      var pc := y.callers[a.id];
      var e := FileEntry(u, pc);
      StillFaithful(y.cache, a.evicted, u.files, pc.selector, pc.name, e);
      EvictionMakesRoom(u.cacheSize, y.cache, a.storedAt, a.evicted, CacheKey(pc.selector, pc.name), e);
    }
    forall id ensures CallerOk(u, y', id) { assert CallerOk(u, y, id); }
  }

  lemma {:induction false} RunKeepsInvariant(u: Setup, actions: seq<Action>)
    requires u.cacheSize >= 1
    ensures Invariant(u, Run(u, actions))
  {
    if actions != [] {
      hide Apply, Invariant;
      RunKeepsInvariant(u, actions[..|actions| - 1]);
      StepKeeps(u, Run(u, actions[..|actions| - 1]), actions[|actions| - 1]);
    }
  }

  /**
   A finished lookup leaves its answer in the cache: another one for the same domain is answered from there, without the
   file, until an hour later, or five minutes later if there was no key.
   */
  lemma NextLookupHits(u: Setup, y: System, id: nat, storedAt: int, evicted: set<string>, next: nat, now: int)
    requires id in y.callers && y.callers[id].Missed? && MayEvict(u.cacheSize, y.cache, storedAt, evicted)
    requires CallerOk(u, y, id) && next !in y.callers
    ensures
      var pc := y.callers[id];
      var y' := Apply(u, y, Finish(id, storedAt, evicted));
      var y'' := Apply(u, y', Begin(next, pc.domain, now));
      var ttl := if u.files(pc.selector, pc.name).Some? then 3600 else 300;
      && y'.callers[id].Returned? && next in y''.callers
      && (y''.callers[next].Returned? <==> now - pc.now < ttl)
      && (y''.callers[next].Returned? ==>
            && y''.callers[next].result.found == y'.callers[id].result.found
            && y''.callers[next].result.keyPem == y'.callers[id].result.keyPem)
  {
    hide Contains, MayEvict, Normal;
  }

  /**
   With unchanging files, whatever lookups came before, whatever falls between the two sections of a lookup and whatever
   is evicted, every lookup finds what reading its file finds, and the cache stays within its size.
   */
  lemma LookupsAnswerLikeFiles(u: Setup, actions: seq<Action>, id: nat)
    requires u.cacheSize >= 1
    ensures
      var y := Run(u, actions);
      && |y.cache| <= u.cacheSize
      && (id in y.callers && y.callers[id].Returned? ==> AnswersLikeFile(u, y.callers[id].domain, y.callers[id].result))
  {
    RunKeepsInvariant(u, actions);
    assert CallerOk(u, Run(u, actions), id);
  }
}
