/** Bus discovery and the per-display bus cache of writeVcp/readVcpEx
    (Sources/BrightnessControlCore/DDCManager.swift). The transaction on one
    bus is an `attempt` oracle; the cache is a map from display to bus index. */
module BusProbe {
  import opened Common

  /** Last bus index known to carry DDC/CI traffic, per display. */
  type BusCache = map<DisplayId, nat>

  /** The Core code scans buses 0..14. */
  const CoreBusCount: nat := 15

  /** The buses lo, lo+1, ..., hi-1 in ascending order. */
  function Range(lo: nat, hi: nat): (r: seq<nat>)
    requires lo <= hi
    ensures |r| == hi - lo
    ensures forall k :: 0 <= k < |r| ==> r[k] == lo + k
  {
    seq(hi - lo, k => lo + k)
  }

  datatype Found<T> = Found(bus: nat, value: T)

  /** Result of a scan: the first bus that answered (if any) and the buses
      tried, in the order they were tried. */
  datatype Scan<T> = Scan(found: Option<Found<T>>, tried: seq<nat>)

  /** `for bus in from..<count { if attempt(bus) succeeds { return } }` */
  function ScanFrom<T>(attempt: nat -> Option<T>, from: nat, count: nat): (s: Scan<T>)
    requires from <= count
    decreases count - from
    ensures s.found.None? <==> forall b :: from <= b < count ==> attempt(b).None?
    ensures s.found.None? ==> s.tried == Range(from, count)
    ensures s.found.Some? ==>
              && from <= s.found.value.bus < count
              && attempt(s.found.value.bus) == Some(s.found.value.value)
              && (forall b :: from <= b < s.found.value.bus ==> attempt(b).None?)
              && s.tried == Range(from, s.found.value.bus + 1)
  {
    if from == count then Scan(None, [])
    else match attempt(from)
      case Some(v) => Scan(Some(Found(from, v)), [from])
      case None =>
        var rest := ScanFrom(attempt, from + 1, count);
        Scan(rest.found, [from] + rest.tried)
  }

  /** Result of one cached transaction. */
  datatype Outcome<T> = Outcome(result: Option<T>, cache: BusCache, tried: seq<nat>)

  /** Every cached bus index is one the scan can produce. */
  predicate CacheInRange(cache: BusCache)
  {
    forall d :: d in cache ==> cache[d] < CoreBusCount
  }

  /** Two caches agree on every display other than `d`. */
  predicate OthersUnchanged(cache: BusCache, cache': BusCache, d: DisplayId)
  {
    && (forall e :: e in cache && e != d ==> e in cache' && cache'[e] == cache[e])
    && (forall e :: e in cache' && e != d ==> e in cache)
  }

  /** The body shared by writeVcp and readVcpEx once the service lookup is
      done: try the cached bus, evict it on failure, scan 0..14, cache the
      first bus that answers. */
  function WithBus<T>(cache: BusCache, d: DisplayId, serviceFound: bool, attempt: nat -> Option<T>): (o: Outcome<T>)
    // no service: nothing tried, nothing cached
    ensures !serviceFound ==> o.result.None? && o.cache == cache && o.tried == []
    // a cached bus that answers is the only bus tried, and the cache stays
    ensures serviceFound && d in cache && attempt(cache[d]).Some? ==>
              o.result == attempt(cache[d]) && o.cache == cache && o.tried == [cache[d]]
    // otherwise: the stale entry (if any) was tried first, then 0, 1, 2, ...
    ensures serviceFound && !(d in cache && attempt(cache[d]).Some?) ==>
              && |o.tried| >= 1
              && (d in cache ==> o.tried[0] == cache[d] && o.tried[1..] == Range(0, |o.tried| - 1))
              && (d !in cache ==> o.tried == Range(0, |o.tried|))
    // success: the display is cached at a bus that answered, and that is the result
    ensures o.result.Some? ==> d in o.cache && o.result == attempt(o.cache[d])
    // success after a miss: the scan stopped at the least bus that answers
    ensures serviceFound && !(d in cache && attempt(cache[d]).Some?) && o.result.Some? ==>
              && o.cache[d] < CoreBusCount
              && (forall b :: 0 <= b < o.cache[d] ==> attempt(b).None?)
              && o.tried[|o.tried| - 1] == o.cache[d]
    // failure after a lookup: every bus failed and the display has no entry
    ensures serviceFound && o.result.None? ==>
              && d !in o.cache
              && (forall b :: 0 <= b < CoreBusCount ==> attempt(b).None?)
              && (d in cache ==> attempt(cache[d]).None?)
    ensures OthersUnchanged(cache, o.cache, d)
    ensures CacheInRange(cache) ==> CacheInRange(o.cache)
  {
    if !serviceFound then Outcome(None, cache, [])
    else if d in cache && attempt(cache[d]).Some? then Outcome(attempt(cache[d]), cache, [cache[d]])
    else Rescan(cache, d, attempt)
  }

  /** The miss path of writeVcp/readVcpEx: the stale entry (if any) is
      evicted after its failed try, buses 0..14 are scanned, and the first
      bus that answers is cached. */
  function Rescan<T>(cache: BusCache, d: DisplayId, attempt: nat -> Option<T>): (o: Outcome<T>)
    requires !(d in cache && attempt(cache[d]).Some?)
    ensures |o.tried| >= 1
    ensures d in cache ==> o.tried[0] == cache[d] && o.tried[1..] == Range(0, |o.tried| - 1)
    ensures d !in cache ==> o.tried == Range(0, |o.tried|)
    ensures o.result.Some? ==>
              && d in o.cache && o.result == attempt(o.cache[d])
              && o.cache[d] < CoreBusCount
              && (forall b :: 0 <= b < o.cache[d] ==> attempt(b).None?)
              && o.tried[|o.tried| - 1] == o.cache[d]
    ensures o.result.None? ==>
              && d !in o.cache
              && (forall b :: 0 <= b < CoreBusCount ==> attempt(b).None?)
    ensures OthersUnchanged(cache, o.cache, d)
    ensures CacheInRange(cache) ==> CacheInRange(o.cache)
  {
    var s := ScanFrom(attempt, 0, CoreBusCount);
    var tried := AfterStale(cache, d, s.tried);
    match s.found
    case Some(f) => Outcome(Some(f.value), Recache(cache, d, Some(f.bus)), tried)
    case None => Outcome(None, Recache(cache, d, None), tried)
  }

  /** The cache after a rescan: the display's old entry is gone and the
      bus that answered (if any) takes its place; no other display moves. */
  function Recache(cache: BusCache, d: DisplayId, bus: Option<nat>): (c: BusCache)
    ensures bus.Some? ==> d in c && c[d] == bus.value
    ensures bus.None? ==> d !in c
    ensures OthersUnchanged(cache, c, d)
    ensures CacheInRange(cache) && (bus.Some? ==> bus.value < CoreBusCount) ==> CacheInRange(c)
  {
    match bus
    case Some(b) => (cache - {d})[d := b]
    case None => cache - {d}
  }

  /** The buses a rescan tries: the stale cached bus (if any), then the
      scan's buses 0, 1, 2, ...; the last one tried is the scan's last. */
  function AfterStale(cache: BusCache, d: DisplayId, scanned: seq<nat>): (t: seq<nat>)
    requires |scanned| >= 1 && scanned == Range(0, |scanned|)
    ensures |t| >= 1 && t[|t| - 1] == scanned[|scanned| - 1]
    ensures d in cache ==> t[0] == cache[d] && t[1..] == Range(0, |t| - 1)
    ensures d !in cache ==> t == Range(0, |t|)
  {
    if d in cache then [cache[d]] + scanned else scanned
  }

  /** After a successful transaction, the next one for the same display
      (with the same bus behaviour) tries the cached bus only, rescans
      nothing and leaves the cache as it was. */
  lemma CachedBusReused<T>(cache: BusCache, d: DisplayId, attempt: nat -> Option<T>)
    requires WithBus(cache, d, true, attempt).result.Some?
    ensures var first := WithBus(cache, d, true, attempt);
            var second := WithBus(first.cache, d, true, attempt);
            && second.tried == [first.cache[d]]
            && second.cache == first.cache
            && second.result == first.result
  {
  }

  /** The scan stops at the first bus that answers: whether the display
      had no entry or a stale one, the bus cached after the scan is the
      least bus that answers, and it is the last bus tried. */
  lemma ScanCachesLeastBus<T>(cache: BusCache, d: DisplayId, attempt: nat -> Option<T>, b: nat)
    requires !(d in cache && attempt(cache[d]).Some?)
    requires b < CoreBusCount && attempt(b).Some?
    ensures var o := WithBus(cache, d, true, attempt);
            && o.result.Some? && o.cache[d] <= b
            && o.tried[|o.tried| - 1] == o.cache[d]
  {
  }
}
