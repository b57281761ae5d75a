/** The DNS tracker's cache, ring and query counters, as it keeps them. */
module DnsTracker {
  import opened Options
  import opened EvictionRing
  import opened DnsRing

  datatype CacheEntry = CacheEntry(domain: string, service: string, expiresAt: int)

  datatype DNSInfo = DNSInfo(domain: string, service: string)

  const MAX_QUERY_COUNTERS := 4096

  class Tracker {
    const minTTL: int
    const maxTTL: int
    var cache: map<Address, CacheEntry>
    const ring: array<Option<Address>>
    var ringPos: nat
    var queryCounts: map<string, nat>

    constructor (minTTL: int, maxTTL: int, capacity: nat)
      requires capacity > 0
      ensures Valid() && View() == Fresh<Address>(capacity) && fresh(ring)
    {
      this.minTTL, this.maxTTL := minTTL, maxTTL;
      cache, ringPos, queryCounts := map[], 0, map[];
      ring := new Option<Address>[capacity](i => None);
    }

    ghost predicate Valid()
      reads this
    {
      ringPos < ring.Length && |queryCounts| <= MAX_QUERY_COUNTERS && "" !in queryCounts
    }

    /** The ring from its oldest slot on. */
    ghost function Window(): seq<Option<Address>>
      requires ringPos < ring.Length
      reads `ringPos, ring
    {
      ring[ringPos..] + ring[..ringPos]
    }

    ghost function View(): Ring<Address>
      requires ringPos < ring.Length
      reads this, ring
    {
      Ring(cache.Keys, Window())
    }

    function Clamped(ttl: int): int {
      var atLeast := if ttl < minTTL then minTTL else ttl;
      if atLeast > maxTTL then maxTTL else atLeast
    }

    /** Caches an answer, evicting through the ring, and counts the query. */
    method CacheInsert(addr: Option<Address>, domain: string, service: string, ttl: int, now: int)
      requires Valid()
      modifies this, ring
      ensures Valid()
      ensures addr.None? || domain == "" ==> cache == old(cache) && View() == old(View()) && queryCounts == old(queryCounts)
      ensures addr.Some? && domain != "" ==>
                && View() == Inserted(old(View()), addr.value)
                && EntriesKept(old(cache), cache, addr.value, CacheEntry(domain, service, now + Clamped(ttl)))
                && Counted(old(queryCounts), domain, queryCounts)
    {
      if addr.Some? && domain != "" {
        Store(addr.value, CacheEntry(domain, service, now + Clamped(ttl)));
        Advance(addr.value);
        CountQuery(domain);
      }
    }

    /** The cache side of an insert: over capacity, the oldest slot's address goes. */
    method Store(a: Address, e: CacheEntry)
      requires ringPos < ring.Length
      modifies `cache
      ensures cache.Keys == Inserted(old(View()), a).cached
      ensures EntriesKept(old(cache), cache, a, e)
    {
      assert Window()[0] == ring[ringPos] && |Window()| == ring.Length;
      cache := cache[a := e];
      assert cache.Keys == old(cache).Keys + {a} && |cache| == |cache.Keys|;
      if |cache| > ring.Length {
        var oldest := ring[ringPos];
        if oldest.Some? {
          cache := cache - {oldest.value};
        }
      }
    }

    /** Writes the slot and moves on, wrapping around. */
    method Advance(a: Address)
      requires ringPos < ring.Length
      modifies `ringPos, ring
      ensures ringPos < ring.Length && Window() == old(Window())[1..] + [Some(a)]
    {
      ghost var before, p := ring[..], ringPos;
      ring[ringPos] := Some(a);
      ringPos := (ringPos + 1) % ring.Length;
      NextSlot(p, ring.Length);
      Wraps(before, p, ring[..], ringPos, Some(a));
    }

    method CountQuery(domain: string)
      requires Valid() && domain != ""
      modifies `queryCounts
      ensures Valid() && Counted(old(queryCounts), domain, queryCounts)
    {
      queryCounts := Bumped(queryCounts, domain);
      assert queryCounts.Keys == old(queryCounts).Keys + {domain};
      if |queryCounts| > MAX_QUERY_COUNTERS {
        EvictLowestCount();
      }
    }

    /** Drops a domain with the fewest observations. */
    method EvictLowestCount()
      requires queryCounts != map[] && "" !in queryCounts
      modifies `queryCounts
      ensures exists victim :: IsLowest(old(queryCounts), victim) && queryCounts == old(queryCounts) - {victim}
      ensures |queryCounts| == |old(queryCounts)| - 1
    {
      var todo := queryCounts.Keys;
      var victim: Option<string> := None;
      assert todo != {};
      while todo != {}
        invariant todo <= queryCounts.Keys
        invariant victim.None? ==> todo == queryCounts.Keys
        invariant victim.Some? ==> victim.value in queryCounts
        invariant victim.Some? ==> forall k :: k in queryCounts && k !in todo ==> queryCounts[victim.value] <= queryCounts[k]
      {
        var k :| k in todo;
        if victim.None? || queryCounts[k] < queryCounts[victim.value] {
          victim := Some(k);
        }
        todo := todo - {k};
      }
      assert IsLowest(queryCounts, victim.value);
      ghost var before := queryCounts;
      queryCounts := queryCounts - {victim.value};
      assert queryCounts.Keys == before.Keys - {victim.value};
    }

    /** The domain of a cached address that has not expired; the service name falls
        back to the domain. */
    method Lookup(ip: Address, now: int) returns (info: DNSInfo)
      ensures info == if ip in cache && now <= cache[ip].expiresAt
                      then DNSInfo(cache[ip].domain, if cache[ip].service == "" then cache[ip].domain else cache[ip].service)
                      else DNSInfo("", "")
    {
      if ip !in cache || now > cache[ip].expiresAt {
        return DNSInfo("", "");
      }
      var svc := cache[ip].service;
      if svc == "" {
        svc := cache[ip].domain;
      }
      info := DNSInfo(cache[ip].domain, svc);
    }
  }

  /** The inserted address has the new entry, every other one the entry it had. */
  predicate EntriesKept(before: map<Address, CacheEntry>, after: map<Address, CacheEntry>, a: Address, e: CacheEntry) {
    forall x :: x in after ==> if x == a then after[x] == e else x in before && after[x] == before[x]
  }

  /** The domain is counted once more; over the limit, one domain with the fewest
      observations is dropped. */
  ghost predicate Counted(before: map<string, nat>, domain: string, after: map<string, nat>) {
    var more := Bumped(before, domain);
    if |more| <= MAX_QUERY_COUNTERS then after == more
    else exists victim :: IsLowest(more, victim) && after == more - {victim}
  }

  predicate IsLowest(counts: map<string, nat>, k: string) {
    k in counts && forall d :: d in counts ==> counts[k] <= counts[d]
  }

  function Bumped(counts: map<string, nat>, d: string): map<string, nat> {
    counts[d := (if d in counts then counts[d] else 0) + 1]
  }

  /** An answer just inserted is found unless the insert evicted it, which happens
      exactly when the cache was over capacity and the oldest slot named it. */
  lemma JustInsertedIsCachedUnless(r: Ring<Address>, a: Address)
    requires r.Valid()
    ensures a in Inserted(r, a).cached <==> !(|r.cached + {a}| > |r.window| && r.window[0] == Some(a))
  {
  }

  // ----- how long an answer lives -----

  /** An answer just cached is given out until its lifetime ends: for at least minTTL,
      never past maxTTL, and until its own TTL when that lies between. */
  method AnswerLives(t: Tracker, addr: Address, domain: string, service: string, ttl: int, now: int, later: int)
    returns (info: DNSInfo)
    requires t.Valid() && domain != "" && t.minTTL <= t.maxTTL
    modifies t, t.ring
    ensures addr in t.cache && later <= now + t.minTTL ==> info.domain == domain
    ensures addr in t.cache && later > now + t.maxTTL ==> info == DNSInfo("", "")
    ensures addr in t.cache && t.minTTL <= ttl <= t.maxTTL ==> (info.domain == domain <==> later <= now + ttl)
    ensures info.domain == domain && addr in t.cache ==> info.service == if service == "" then domain else service
  {
    t.CacheInsert(Some(addr), domain, service, ttl, now);
    info := t.Lookup(addr, later);
  }

  // ----- what the query counters count -----

  /** The counters after each of a run of queries. */
  ghost predicate CountsQueries(counts: seq<map<string, nat>>, domains: seq<string>) {
    && |counts| == |domains| + 1 && counts[0] == map[]
    && forall i :: 0 <= i < |domains| ==> Counted(counts[i], domains[i], counts[i + 1])
  }

  /** A counter is never ahead of the queries; with no more different domains than
      counters each counts exactly its own queries. */
  lemma {:induction false} CountersCountQueries(counts: seq<map<string, nat>>, domains: seq<string>, d: string)
    requires CountsQueries(counts, domains)
    ensures d in counts[|domains|] ==> 0 < counts[|domains|][d] <= multiset(domains)[d]
    ensures |(set x | x in domains)| <= MAX_QUERY_COUNTERS ==>
              counts[|domains|].Keys == (set x | x in domains) && (d in domains ==> counts[|domains|][d] == multiset(domains)[d])
  {
    var n := |domains| - 1;
    if domains != [] {
      var init, last := domains[..n], domains[n];
      assert domains == init + [last];
      assert CountsQueries(counts[..n + 1], init);
      CountersCountQueries(counts[..n + 1], init, d);
      assert (set x | x in domains) == (set x | x in init) + {last};
      OneMoreQuery(counts[n], last, counts[n + 1], (set x | x in init), d);
    }
  }

  lemma OneMoreQuery(before: map<string, nat>, domain: string, after: map<string, nat>, seen: set<string>, d: string)
    requires Counted(before, domain, after)
    ensures d in after ==> after[d] == (if d in before then before[d] else 0) + (if d == domain then 1 else 0)
    ensures |seen| <= |seen + {domain}|
    ensures before.Keys == seen && |seen + {domain}| <= MAX_QUERY_COUNTERS ==> after.Keys == seen + {domain}
    ensures d in after ==> d in before || d == domain
  {
    var more := Bumped(before, domain);
    assert more.Keys == before.Keys + {domain} && |more| == |more.Keys|;
    assert seen + {domain} == seen + ({domain} - seen);
  }

  /** The counters stay within their limit; a query drops at most one domain, only when
      they are full, and one that no kept domain was seen less often than. */
  lemma OnlyALeastSeenLeaves(before: map<string, nat>, domain: string, after: map<string, nat>, gone: string)
    requires Counted(before, domain, after) && |before| <= MAX_QUERY_COUNTERS
    requires gone in before && gone != domain && gone !in after
    ensures domain in after && |before| == MAX_QUERY_COUNTERS == |after| && domain !in before
    ensures forall d :: d in before && d != gone ==> d in after && after[d] == before[d] >= before[gone]
  {
    var more := Bumped(before, domain);
    assert more.Keys == before.Keys + {domain} && |more| == |more.Keys|;
    var victim :| IsLowest(more, victim) && after == more - {victim};
    assert victim == gone && after.Keys == more.Keys - {gone};
  }
}
