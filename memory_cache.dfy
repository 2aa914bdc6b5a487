/**
 * The in-memory cache store: one tier of entries for resolved markdown and
 * one for HTML, both keyed by string. In the source the two dictionaries are
 * class attributes, so every instance shares them; the model has one cache
 * object that is passed to every operation that uses it.
 */
module Caching {
  import opened Outcomes

  /** A clock reading; the model takes it as a parameter. */
  type Timestamp = nat

  datatype CacheEntry = CacheEntry(key: string, name: string, created: Timestamp, contents: string)

  type Tier = map<string, CacheEntry>

  /** The contents of both tiers at one moment. */
  datatype Tiers = Tiers(markdown: Tier, html: Tier)

  /** `tier.get(key)` */
  function Find(tier: Tier, key: string): (r: Option<CacheEntry>)
    ensures r.Some? <==> key in tier
    ensures r.Some? ==> r.value == tier[key]
  {
    if key in tier then Some(tier[key]) else None
  }

  /** The size of a tier grows by one exactly when a new key is added. */
  lemma AddCount(tier: Tier, key: string, entry: CacheEntry)
    ensures |tier[key := entry]| == if key in tier then |tier| else |tier| + 1
  {
    if key in tier {
      assert tier[key := entry].Keys == tier.Keys;
    } else {
      assert tier[key := entry].Keys == tier.Keys + {key};
    }
  }

  class MemoryCache {
    var markdownCache: Tier
    var htmlCache: Tier

    constructor()
      ensures markdownCache == map[] && htmlCache == map[]
    {
      markdownCache := map[];
      htmlCache := map[];
    }

    function Snapshot(): Tiers
      reads this
    {
      Tiers(markdownCache, htmlCache)
    }

    method GetHtml(key: string) returns (entry: Option<CacheEntry>)
      ensures entry.Some? <==> key in htmlCache
      ensures entry.Some? ==> entry.value == htmlCache[key]
    {
      entry := Find(htmlCache, key);
    }

    /** Stores a new entry, replacing any entry under the same key. */
    method AddHtml(key: string, name: string, contents: string, now: Timestamp) returns (entry: CacheEntry)
      modifies this
      ensures entry == CacheEntry(key, name, now, contents)
      ensures htmlCache == old(htmlCache)[key := entry]
      ensures markdownCache == old(markdownCache)
    {
      entry := CacheEntry(key, name, now, contents);
      htmlCache := htmlCache[key := entry];
    }

    method GetMarkdown(key: string) returns (entry: Option<CacheEntry>)
      ensures entry.Some? <==> key in markdownCache
      ensures entry.Some? ==> entry.value == markdownCache[key]
    {
      entry := Find(markdownCache, key);
    }

    /** Stores a new entry, replacing any entry under the same key. */
    method AddMarkdown(key: string, name: string, contents: string, now: Timestamp) returns (entry: CacheEntry)
      modifies this
      ensures entry == CacheEntry(key, name, now, contents)
      ensures markdownCache == old(markdownCache)[key := entry]
      ensures htmlCache == old(htmlCache)
    {
      entry := CacheEntry(key, name, now, contents);
      markdownCache := markdownCache[key := entry];
    }

    method Clear()
      modifies this
      ensures markdownCache == map[] && htmlCache == map[]
    {
      markdownCache := map[];
      htmlCache := map[];
    }

    method Count() returns (n: nat)
      ensures n == |markdownCache| + |htmlCache|
    {
      n := |markdownCache| + |htmlCache|;
    }
  }

  /** A client of the cache: a stored entry is found again with its key,
      name and contents; the other tier and the count move as promised. */
  method AddThenGet(cache: MemoryCache, key: string, name: string, contents: string, now: Timestamp)
    returns (found: Option<CacheEntry>, before: nat, after: nat)
    modifies cache
    ensures found == Some(CacheEntry(key, name, now, contents))
    ensures cache.markdownCache == old(cache.markdownCache)
    ensures after == if key in old(cache.htmlCache) then before else before + 1
  {
    before := cache.Count();
    var _ := cache.AddHtml(key, name, contents, now);
    found := cache.GetHtml(key);
    AddCount(old(cache.htmlCache), key, CacheEntry(key, name, now, contents));
    after := cache.Count();
  }
}
