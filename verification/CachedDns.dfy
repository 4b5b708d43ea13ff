/** The caching resolver: answers kept in a TTL map, their expiry clamped to configured bounds. */
module CachedDns {
  import opened Basics
  import opened Recency
  import opened TtlMap
  import TtlRuns

  const MAX_DURATION := 0x7fff_ffff_ffff_ffff
  const MIN_DURATION := -0x8000_0000_0000_0000

  type Duration = d: int | MIN_DURATION <= d <= MAX_DURATION

  datatype Key = Key(domain: string, queryType: nat)
  datatype Response = Response(known: bool, addresses: seq<string>, expires: Time, protectionRequired: bool)
  datatype Config = Config(minTtl: Duration, maxTtl: Duration, keepTime: Duration)

  /** The answer handed out when nothing is cached and the nested resolver fails. */
  const BLANK := Response(false, [], 0, false)

  /** The distance of two moments, held to what a duration can express. */
  function Sub(t: Time, u: Time): Duration {
    if t - u > MAX_DURATION then MAX_DURATION else if t - u < MIN_DURATION then MIN_DURATION else t - u
  }

  predicate Fresh(r: Response, now: Time) {
    r.expires == 0 || now <= r.expires
  }

  function Capped(c: Config, r: Response, t: Time): Response
    requires r.expires != 0
  {
    var ttl := Sub(r.expires, t);
    if ttl > c.maxTtl then r.(expires := t + c.maxTtl)
    else if ttl < c.minTtl then r.(expires := t + c.minTtl)
    else r
  }

  /** The entry an answer is kept as. */
  function Filed(c: Config, k: Key, r: Response, t: Time): Entry<Key, Response> {
    if r.expires == 0 then Entry(k, r, 0) else Entry(k, Capped(c, r, t), t + c.keepTime)
  }

  class CachedResolver {
    const cache: TTLMap<Key, Response>
    var config: Config

    constructor (maxSize: int, c: Config, now: Time)
      ensures cache.Valid() && cache.Entries() == [] && cache.maxSize == maxSize && config == c && fresh(cache)
    {
      cache := new TTLMap(maxSize, now);
      config := c;
    }

    /** The clock is read for the map lookup, for the freshness test, for the filing, and inside the map. */
    method Lookup(key: Key, atGet: Time, atTest: Time, nested: Option<Response>, atFile: Time, now: Time, stamp: Time)
      returns (r: Response)
      requires cache.Valid() && (nested.Some? ==> cache.maxSize >= 1)
      modifies cache, cache.order
      ensures cache.Valid() && cache.maxSize == old(cache.maxSize)
      ensures var (hit, kept) := Recency.Get(old(cache.Entries()), key, atGet);
              if hit.Some? && Fresh(hit.value, atTest) then r == hit.value && cache.Entries() == kept
              else if nested.None? then r == (if hit.Some? then hit.value else BLANK) && cache.Entries() == kept
              else
                r == nested.value && cache.Entries() == Recency.Set(kept, cache.maxSize, Filed(config, key, r, atFile))
      ensures var hit := Recency.Get(old(cache.Entries()), key, atGet).0;
              && (hit.Some? && (hit.value.expires == 0 || atTest <= hit.value.expires) ==> r == hit.value)
              && (nested.Some? && (hit.None? || (hit.value.expires != 0 && atTest > hit.value.expires)) ==>
                    r == nested.value)
    {
      var hit := cache.Get(key, atGet);
      if hit.Some? && (hit.value.expires == 0 || atTest <= hit.value.expires) {
        return hit.value;
      }
      if nested.None? {
        return if hit.Some? then hit.value else BLANK;
      }
      CacheResult(key, nested.value, atFile, now, stamp);
      return nested.value;
    }

    method CacheResult(key: Key, result: Response, atFile: Time, now: Time, stamp: Time)
      requires cache.Valid() && cache.maxSize >= 1
      modifies cache, cache.order
      ensures cache.Valid() && cache.maxSize == old(cache.maxSize)
      ensures cache.Entries() == Recency.Set(old(cache.Entries()), cache.maxSize, Filed(config, key, result, atFile))
    {
      var r, deadline := result, 0;
      if r.expires != 0 {
        var ttl := Sub(r.expires, atFile);
        if ttl < config.minTtl {
          r := r.(expires := atFile + config.minTtl);
        }
        if ttl > config.maxTtl {
          r := r.(expires := atFile + config.maxTtl);
        }
        deadline := atFile + config.keepTime;
      }
      var _ := cache.Set(key, r, deadline, now, stamp);
    }

    method Preset(key: Key, response: Option<Response>, atFile: Time, now: Time, stamp: Time)
      requires cache.Valid() && (response.Some? ==> cache.maxSize >= 1)
      modifies cache, cache.order
      ensures cache.Valid() && cache.maxSize == old(cache.maxSize)
      ensures cache.Entries() ==
        if response.None? then Without(old(cache.Entries()), key)
        else Recency.Set(old(cache.Entries()), cache.maxSize, Filed(config, key, response.value, atFile))
    {
      if response.None? {
        var _ := cache.Delete(key, now, stamp);
      } else {
        CacheResult(key, response.value, atFile, now, stamp);
      }
    }
  }

  // ---- bounded staleness ---------------------------------------------------------------

  /** A run of the map in which the i-th operation, if it stores, files the answer given[i] at time at[i]. */
  ghost predicate Files(c: Config, ops: seq<TtlRuns.Op<Key, Response>>, given: seq<Response>, at: seq<Time>) {
    && |given| == |at| == |ops|
    && (forall i {:trigger ops[i]} :: 0 <= i < |ops| && ops[i].Set? ==>
          ops[i].e == Filed(c, ops[i].e.key, given[i], at[i]))
  }

  /** What the expiry of a filed answer is bounded by, and for which configurations that is maxTtl. */
  lemma CappedWithin(c: Config, r: Response, t: Time)
    requires r.expires != 0 && c.minTtl <= c.maxTtl < MAX_DURATION
    ensures Capped(c, r, t).expires <= t + c.maxTtl
  {
  }

  /** The expiry is moved into the bounds, and only if it lies outside them. */
  lemma CappedIs(c: Config, r: Response, t: Time)
    requires r.expires != 0 && c.minTtl <= c.maxTtl < MAX_DURATION && MIN_DURATION < c.minTtl
    ensures Capped(c, r, t) ==
            if r.expires < t + c.minTtl then r.(expires := t + c.minTtl)
            else if r.expires > t + c.maxTtl then r.(expires := t + c.maxTtl)
            else r
  {
  }

  lemma CapHoldsIff(c: Config, t: Time)
    ensures (forall r: Response :: r.expires != 0 ==> Capped(c, r, t).expires <= t + c.maxTtl)
       <==> c.minTtl <= c.maxTtl < MAX_DURATION
  {
    if c.minTtl > c.maxTtl {
      var r := Response(true, [], if t + c.maxTtl != 0 then t + c.maxTtl else -1, false);
      assert Capped(c, r, t).expires > t + c.maxTtl;
    } else if c.maxTtl == MAX_DURATION {
      var r := Response(true, [], if t + MAX_DURATION + 1 != 0 then t + MAX_DURATION + 1 else 1, false);
      assert Capped(c, r, t).expires > t + c.maxTtl;
    }
  }

  /** A fresh hit with an expiry was filed for the same key at most maxTtl before; without an expiry it was
      filed without one, the clock being past the zero time by more than a duration. */
  lemma FreshHitIsRecent(states: seq<TtlRuns.State<Key, Response>>, ops: seq<TtlRuns.Op<Key, Response>>, n: nat,
      c: Config, given: seq<Response>, at: seq<Time>, k: Key, now: Time, test: Time) returns (i: nat)
    requires TtlRuns.Run(states, ops) && n <= |ops| && Files(c, ops, given, at)
    requires c.minTtl <= c.maxTtl < MAX_DURATION
    requires Recency.Get(states[n].s, k, now).0.Some?
    ensures i < n && ops[i].Set? && ops[i].e == Filed(c, k, given[i], at[i])
    ensures var hit := Recency.Get(states[n].s, k, now).0.value;
            && hit == ops[i].e.value
            && (hit.expires != 0 && Fresh(hit, test) ==> test - at[i] <= c.maxTtl)
            && (given[i].expires == 0 ==> hit == given[i])
            && (hit.expires == 0 && at[i] > MAX_DURATION + 1 ==> given[i].expires == 0)
  {
    TtlRuns.GetFindsLastSet(states, ops, n, k, now);
    i := TtlRuns.LastSet(ops, n, k);
    if given[i].expires != 0 {
      CappedWithin(c, given[i], at[i]);
    }
  }

  /** As long as its entry is there, an answer filed last is found exactly up to keepTime later, or for ever if it
      came without an expiry. */
  lemma FoundWhileKept(states: seq<TtlRuns.State<Key, Response>>, ops: seq<TtlRuns.Op<Key, Response>>, n: nat,
      c: Config, given: seq<Response>, at: seq<Time>, k: Key, now: Time) returns (i: nat)
    requires TtlRuns.Run(states, ops) && n <= |ops| && Files(c, ops, given, at)
    requires forall i :: 0 <= i < |at| ==> at[i] > MAX_DURATION + 1
    requires HasKey(states[n].s, k)
    ensures i < n && ops[i].Set? && ops[i].e == Filed(c, k, given[i], at[i])
    ensures Recency.Get(states[n].s, k, now).0 ==
            if given[i].expires == 0 || now <= at[i] + c.keepTime then Some(ops[i].e.value) else None
  {
    TtlRuns.RunKeeps(states, ops, n);
    var e := At(states[n].s, k);
    TtlRuns.HoldsLastSet(states, ops, n, e);
    i := TtlRuns.LastSet(ops, n, k);
    TtlRuns.FoundHere(states[n].s, e, now);
  }

  /** Whatever is found, fresh or not, was filed at most keepTime before it was looked up. */
  lemma FallbackIsKept(states: seq<TtlRuns.State<Key, Response>>, ops: seq<TtlRuns.Op<Key, Response>>, n: nat,
      c: Config, given: seq<Response>, at: seq<Time>, k: Key, now: Time) returns (i: nat)
    requires TtlRuns.Run(states, ops) && n <= |ops| && Files(c, ops, given, at)
    requires forall i :: 0 <= i < |at| ==> at[i] > MAX_DURATION + 1
    requires Recency.Get(states[n].s, k, now).0.Some?
    ensures i < n && ops[i].Set? && ops[i].e == Filed(c, k, given[i], at[i])
    ensures Recency.Get(states[n].s, k, now).0.value == ops[i].e.value
    ensures given[i].expires == 0 || now - at[i] <= c.keepTime
  {
    TtlRuns.GetFindsLastSet(states, ops, n, k, now);
    i := TtlRuns.LastSet(ops, n, k);
  }
}
