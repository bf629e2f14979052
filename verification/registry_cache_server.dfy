/** The critical sections of server/imageproxyserver.go as code, proved to be the steps of RegistryCache. */
module RegistryCacheServer {
  import opened Wrappers
  import opened RegistryCache

  class Server {
    var registryCache: map<string, Entry>

    constructor ()
      ensures registryCache == map[]
    {
      registryCache := map[];
    }

    /** The section under the read lock. */
    method ReadSection(cacheKey: string, now: int) returns (found: Option<RegistryInfo>)
      ensures found == Lookup(registryCache, cacheKey, now)
      ensures found ==
        if cacheKey in registryCache && now < registryCache[cacheKey].expiresAt then Some(registryCache[cacheKey].info)
        else None
    {
      if cacheKey in registryCache {
        if now < registryCache[cacheKey].expiresAt {
          return Some(registryCache[cacheKey].info);
        }
      }
      found := None;
    }

    /** The section under the write lock. */
    method WriteSection(cacheKey: string, info: RegistryInfo, now: int)
      modifies this
      ensures registryCache == Stored(old(registryCache), cacheKey, info, now)
      ensures registryCache == old(registryCache)[cacheKey := Entry(info, now + 15 * 60 * 1_000_000_000)]
    {
      registryCache := registryCache[cacheKey := Entry(info, now + TTL)];
    }

    /** `getOrDetectRegistry` when nothing intervenes: read at `now`, detection answering `answer`, write at `later`. */
    method GetOrDetect(registry: string, repository: string, now: int, answer: Option<RegistryInfo>, later: int)
        returns (result: Option<RegistryInfo>)
      modifies this
      ensures
        var key, was := registry + "/" + repository, old(registryCache);
        if key in was && now < was[key].expiresAt then result == Some(was[key].info) && registryCache == was
        else
          result == answer && registryCache ==
            if answer.Some? then was[key := Entry(answer.value, later + 15 * 60 * 1_000_000_000)] else was
    {
      var cacheKey := CacheKey(registry, repository);
      result := ReadSection(cacheKey, now);
      if result.None? {
        result := answer;
        if answer.Some? {
          WriteSection(cacheKey, answer.value, later);
        }
      }
    }

    /** One round of `cleanupExpiredCacheEntries`, which sampled `now` before it got the lock. */
    method Sweep(now: int) returns (remaining: nat)
      modifies this
      ensures registryCache == Swept(old(registryCache), now) && remaining == |registryCache|
      ensures forall key :: key in registryCache ==> registryCache[key].expiresAt >= now
    {
      var expiredKeys: seq<string> := [];
      var todo := registryCache.Keys;
      while todo != {}
        invariant todo <= registryCache.Keys
        invariant forall key :: key in expiredKeys <==>
          key in registryCache && key !in todo && registryCache[key].expiresAt < now
        decreases todo
      {
        var key :| key in todo;
        todo := todo - {key};
        if now > registryCache[key].expiresAt {
          expiredKeys := expiredKeys + [key];
        }
      }
      for i := 0 to |expiredKeys|
        invariant registryCache == old(registryCache) - (set key | key in expiredKeys[..i])
      {
        assert expiredKeys[..i + 1] == expiredKeys[..i] + [expiredKeys[i]];
        registryCache := registryCache - {expiredKeys[i]};
      }
      assert expiredKeys[..|expiredKeys|] == expiredKeys;
      remaining := |registryCache|;
    }
  }
}
