/** The choice of the route configuration: the newest of what the mirrors return, and the cache that it
    replaces only when it is newer. */
module OssConfig {
  import opened Collections
  import opened ConfigVersions

  /** A decoded configuration; decoding fails unless there is at least one domain. */
  datatype Bundle = Bundle(version: string, domains: seq<string>, gatewayURLs: seq<string>)

  /** What came back from mirror number `index`. */
  datatype Fetched = Fetched(index: int, bundle: Option<Bundle>)

  ghost predicate Better(a: Fetched, b: Fetched)
    requires a.bundle.Some? && b.bundle.Some?
  {
    Lower(b.bundle.value.version, a.bundle.value.version) ||
    (Same(a.bundle.value.version, b.bundle.value.version) && a.index < b.index)
  }

  /** The best of the usable results. */
  ghost predicate IsWinner(received: seq<Fetched>, best: Option<Fetched>) {
    match best
    case None => forall r :: r in received ==> r.bundle.None?
    case Some(w) => w in received && w.bundle.Some? &&
                    forall r :: r in received && r.bundle.Some? ==> !Better(r, w)
  }

  ghost predicate DistinctIndexes(received: seq<Fetched>) {
    forall a, b :: a in received && b in received && a.index == b.index ==> a == b
  }

  lemma BetterTransitive(a: Fetched, b: Fetched, c: Fetched)
    requires a.bundle.Some? && b.bundle.Some? && c.bundle.Some?
    requires Better(a, b) && Better(b, c)
    ensures Better(a, c)
  {
    Transitive(c.bundle.value.version, b.bundle.value.version, a.bundle.value.version);
    Transitive(a.bundle.value.version, b.bundle.value.version, c.bundle.value.version);
    Exclusive(a.bundle.value.version, b.bundle.value.version);
    Exclusive(b.bundle.value.version, c.bundle.value.version);
  }

  /** Of two different results one is better. */
  lemma BetterTotal(a: Fetched, b: Fetched)
    requires a.bundle.Some? && b.bundle.Some? && a.index != b.index
    ensures Better(a, b) <==> !Better(b, a)
  {
    Total(a.bundle.value.version, b.bundle.value.version);
    Exclusive(a.bundle.value.version, b.bundle.value.version);
    Exclusive(b.bundle.value.version, a.bundle.value.version);
  }

  /** Results are taken as they arrive until all are in or the time is up. */
  method FetchGroup(received: seq<Fetched>) returns (best: Option<Fetched>)
    requires DistinctIndexes(received)
    ensures IsWinner(received, best)
  {
    best := None;
    for i := 0 to |received|
      invariant IsWinner(received[..i], best)
    {
      var result := received[i];
      assert received[..i + 1] == received[..i] + [result];
      if result.bundle.None? {
        continue;
      }
      if best.None? {
        Exclusive(result.bundle.value.version, result.bundle.value.version);
        best := Some(result);
        continue;
      }
      var comparison := CompareConfigVersions(result.bundle.value.version, best.value.bundle.value.version);
      Exclusive(result.bundle.value.version, best.value.bundle.value.version);
      Exclusive(best.value.bundle.value.version, result.bundle.value.version);
      Exclusive(result.bundle.value.version, result.bundle.value.version);
      if comparison > 0 || (comparison == 0 && result.index < best.value.index) {
        NewWinner(received[..i], best.value, result);
        best := Some(result);
      }
    }
    assert received[..|received|] == received;
  }

  lemma NewWinner(received: seq<Fetched>, held: Fetched, result: Fetched)
    requires IsWinner(received, Some(held)) && result.bundle.Some? && Better(result, held)
    ensures forall r :: r in received && r.bundle.Some? ==> !Better(r, result)
  {
    forall r | r in received && r.bundle.Some?
      ensures !Better(r, result)
    {
      if Better(r, result) {
        BetterTransitive(r, result, held);
      }
    }
  }

  /** The winner depends on which results have arrived, not on the order of their arrival. */
  lemma WinnerIgnoresOrder(a: seq<Fetched>, b: seq<Fetched>, x: Option<Fetched>, y: Option<Fetched>)
    requires DistinctIndexes(a) && multiset(a) == multiset(b)
    requires IsWinner(a, x) && IsWinner(b, y)
    ensures x == y
  {
    assert forall r :: r in a <==> r in multiset(a);
    assert forall r :: r in b <==> r in multiset(b);
    if x.Some? && y.Some? && x != y {
      assert x.value in b && y.value in a;
      assert x.value.index != y.value.index;
      BetterTotal(x.value, y.value);
      assert false;
    }
  }

  // ---------- the cache ----------

  /** `Unusable` is a cache file that is missing, unreadable or without domains. */
  datatype Cache = Unusable | Complete(bundle: Bundle)

  /** What one refresh meets: whether fetching is configured, what the normal mirrors and the emergency
      mirror return, which routes are healthy, and whether writing the cache works. */
  datatype Conditions = Conditions(
    keySet: bool, normal: seq<Fetched>, emergency: seq<Fetched>,
    routeHealthy: bool, cacheHealthy: bool, cacheHealthyAtOnce: bool, writable: bool)

  datatype Served = Nothing | FromCache(bundle: Bundle) | FromMirror(bundle: Bundle)

  class RouteConfig {
    var cache: Cache

    constructor (cache: Cache)
      ensures this.cache == cache
    {
      this.cache := cache;
    }

    /** Resolves the routes and updates the cache; `result` is what the mirrors have come to. A route that is served
        was reachable, and nothing is served only where no route was. A mirror's configuration is served where it is
        newer than the cache, or where the cache could not be reached at once; only a newer one is written. */
    method FetchBusinessBaseURLs(c: Conditions) returns (served: Served, ghost result: Option<Bundle>)
      requires DistinctIndexes(c.normal) && DistinctIndexes(c.emergency)
      modifies this
      ensures IsResult(c, result) && IsRefresh(old(cache), c, result, cache, served)
      ensures served == Nothing <==>
                (result.None? || !c.routeHealthy) && (old(cache).Unusable? || !c.cacheHealthy)
      ensures served.FromMirror? ==>
                result == Some(served.bundle) && c.routeHealthy &&
                (old(cache).Complete? && c.cacheHealthyAtOnce ==>
                   Lower(old(cache).bundle.version, served.bundle.version))
      ensures served.FromCache? ==>
                old(cache) == Complete(served.bundle) &&
                if result.Some? && c.routeHealthy
                then c.cacheHealthyAtOnce && !Lower(served.bundle.version, result.value.version)
                else c.cacheHealthy
      ensures cache == if result.Some? && c.routeHealthy && c.writable &&
                          (old(cache).Unusable? || Lower(old(cache).bundle.version, result.value.version))
                       then Complete(result.value) else old(cache)
    {
      served, result := Nothing, None;
      if !c.keySet {
        served := ServeCache(c.cacheHealthy);
        return;
      }
      var best := FetchGroup(c.normal);
      ghost var normalBest := best;
      if best.None? {
        best := FetchGroup(c.emergency);
      }
      var found := if best.Some? then best.value.bundle else None;
      result := found;
      assert normalBest.None? ==> EmergencyResult(c, result);
      assert IsResult(c, result);
      served := UseResult(c, found);
    }

    method UseResult(c: Conditions, result: Option<Bundle>) returns (served: Served)
      requires c.keySet
      modifies this
      ensures cache == NewCache(old(cache), c, result) && served == Serving(old(cache), c, result)
    {
      if result.None? || !c.routeHealthy {
        served := ServeCache(c.cacheHealthy);
        return;
      }
      if cache.Complete? {
        var comparison := CompareConfigVersions(cache.bundle.version, result.value.version);
        Total(cache.bundle.version, result.value.version);
        Exclusive(cache.bundle.version, result.value.version);
        Exclusive(result.value.version, cache.bundle.version);
        if comparison >= 0 {
          served := if c.cacheHealthyAtOnce then FromCache(cache.bundle) else FromMirror(result.value);
          return;
        }
      }
      if c.writable {
        cache := Complete(result.value);
      }
      served := FromMirror(result.value);
    }

    method ServeCache(healthy: bool) returns (served: Served)
      ensures served == ServingCache(cache, healthy)
    {
      served := if cache.Complete? && healthy then FromCache(cache.bundle) else Nothing;
    }
  }

  ghost function ServingCache(cache: Cache, healthy: bool): Served {
    if cache.Complete? && healthy then FromCache(cache.bundle) else Nothing
  }

  ghost predicate IsRefresh(cache: Cache, c: Conditions, result: Option<Bundle>, cache': Cache, served: Served) {
    cache' == NewCache(cache, c, result) && served == Serving(cache, c, result)
  }

  ghost function BundleOf(best: Option<Fetched>): Option<Bundle> {
    if best.Some? then best.value.bundle else None
  }

  ghost predicate EmergencyResult(c: Conditions, result: Option<Bundle>) {
    exists best :: IsWinner(c.emergency, best) && result == BundleOf(best)
  }

  ghost predicate IsResultAfter(c: Conditions, best: Option<Fetched>, result: Option<Bundle>) {
    if best.Some? then result == BundleOf(best) else EmergencyResult(c, result)
  }

  /** The emergency mirror counts only when no normal mirror has a usable result. */
  ghost predicate IsResult(c: Conditions, result: Option<Bundle>) {
    if !c.keySet then result == None
    else exists best :: IsWinner(c.normal, best) && IsResultAfter(c, best, result)
  }

  /** A result replaces the cache when its route is healthy and the cache is not at least as new. */
  ghost predicate Replaces(cache: Cache, c: Conditions, result: Option<Bundle>) {
    result.Some? && c.routeHealthy && (cache.Complete? ==> Lower(cache.bundle.version, result.value.version))
  }

  ghost function NewCache(cache: Cache, c: Conditions, result: Option<Bundle>): Cache {
    if Replaces(cache, c, result) && c.writable then Complete(result.value) else cache
  }

  ghost function Serving(cache: Cache, c: Conditions, result: Option<Bundle>): Served {
    if result.None? || !c.routeHealthy then ServingCache(cache, c.cacheHealthy)
    else if Replaces(cache, c, result) then FromMirror(result.value)
    else if c.cacheHealthyAtOnce then FromCache(cache.bundle)
    else FromMirror(result.value)
  }

  /** The configuration came from a mirror, and the mirrors before that one have lower versions or none. */
  ghost predicate ComesFirst(received: seq<Fetched>, bundle: Bundle) {
    exists w :: w in received && w.bundle == Some(bundle) &&
      forall r :: r in received && r.bundle.Some? && r.index < w.index ==> Lower(r.bundle.value.version, bundle.version)
  }

  /** The newest usable configuration of the normal mirrors or, where none of them has one, of the emergency mirror;
      of several that are as new, the one of the first mirror. */
  lemma ResultIsNewest(c: Conditions, result: Option<Bundle>)
    requires c.keySet && IsResult(c, result)
    ensures result.None? <==> forall r :: r in c.normal || r in c.emergency ==> r.bundle.None?
    ensures result.Some? ==>
              var group := if exists r :: r in c.normal && r.bundle.Some? then c.normal else c.emergency;
              ComesFirst(group, result.value) &&
              forall r :: r in group && r.bundle.Some? ==> !Lower(result.value.version, r.bundle.value.version)
  {
    var best :| IsWinner(c.normal, best) && IsResultAfter(c, best, result);
    if best.None? {
      var last :| IsWinner(c.emergency, last) && result == BundleOf(last);
      if last.Some? {
        WinnerComesFirst(c.emergency, last.value);
      }
    } else {
      WinnerComesFirst(c.normal, best.value);
    }
  }

  lemma WinnerComesFirst(received: seq<Fetched>, w: Fetched)
    requires IsWinner(received, Some(w))
    ensures ComesFirst(received, w.bundle.value)
    ensures forall r :: r in received && r.bundle.Some? ==> !Lower(w.bundle.value.version, r.bundle.value.version)
  {
    forall r | r in received && r.bundle.Some? && r.index < w.index
      ensures Lower(r.bundle.value.version, w.bundle.value.version)
    {
      Total(r.bundle.value.version, w.bundle.value.version);
    }
  }

  /** A cache write strictly raises the version of a complete cache. */
  lemma WriteRaisesVersion(cache: Cache, c: Conditions, result: Option<Bundle>)
    requires cache.Complete? && NewCache(cache, c, result) != cache
    ensures NewCache(cache, c, result).Complete?
    ensures Lower(cache.bundle.version, NewCache(cache, c, result).bundle.version)
  {
  }

  datatype Refresh = Refresh(conditions: Conditions, result: Option<Bundle>)

  ghost function AfterRefreshes(cache: Cache, refreshes: seq<Refresh>): Cache
    decreases |refreshes|
  {
    if refreshes == [] then cache
    else AfterRefreshes(NewCache(cache, refreshes[0].conditions, refreshes[0].result), refreshes[1..])
  }

  /** Over any run of refreshes a complete cache stays complete, and it ends either unchanged or with a
      strictly higher version: it never goes back, and never comes back to an earlier content. */
  lemma {:induction false} RunNeverLowers(cache: Cache, refreshes: seq<Refresh>)
    requires cache.Complete?
    ensures var end := AfterRefreshes(cache, refreshes);
            end.Complete? && (end == cache || Lower(cache.bundle.version, end.bundle.version))
    decreases |refreshes|
  {
    if refreshes != [] {
      var next := NewCache(cache, refreshes[0].conditions, refreshes[0].result);
      RunNeverLowers(next, refreshes[1..]);
      if next != cache {
        WriteRaisesVersion(cache, refreshes[0].conditions, refreshes[0].result);
        Transitive(cache.bundle.version, next.bundle.version, AfterRefreshes(cache, refreshes).bundle.version);
      }
    }
  }

  /** Over any run the cache keeps up with what it has seen: it ends complete and no older than any result
      whose route was reachable when the cache could be written, whatever came before and after. */
  lemma {:induction false} RunKeepsUp(cache: Cache, refreshes: seq<Refresh>, i: nat)
    requires i < |refreshes| && refreshes[i].result.Some?
    requires refreshes[i].conditions.routeHealthy && refreshes[i].conditions.writable
    ensures var end := AfterRefreshes(cache, refreshes);
            end.Complete? && !Lower(end.bundle.version, refreshes[i].result.value.version)
    decreases |refreshes|
  {
    var next := NewCache(cache, refreshes[0].conditions, refreshes[0].result);
    if i > 0 {
      RunKeepsUp(next, refreshes[1..], i - 1);
    } else {
      var end, seen := AfterRefreshes(cache, refreshes), refreshes[0].result.value.version;
      RunNeverLowers(next, refreshes[1..]);
      Exclusive(seen, seen);
      Exclusive(end.bundle.version, seen);
      Exclusive(seen, end.bundle.version);
      Transitive(next.bundle.version, end.bundle.version, seen);
    }
  }
}
