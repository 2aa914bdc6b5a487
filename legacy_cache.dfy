/**
 * The caches of the legacy pipeline (_impl/page.py): two module
 * dictionaries, one for markdown and one for HTML, keyed by the page path
 * AND the request data, `name: <path>, data: <repr(data)>`. A hit returns
 * the stored contents verbatim; a miss computes, stores under the same key
 * and returns. Conversions go through the legacy transformer's own memo.
 *
 * Python's `repr` of a dictionary is foreign code: it is the parameter
 * `show`. Where a property needs the key to tell calls apart, that is a
 * stated requirement on `show`.
 */
module LegacyCache {
  import opened Outcomes
  import opened PyStr
  import opened Dicts
  import opened ContentStore
  import opened Transformer
  import opened LegacyTransformer
  import opened LegacyPage

  /** `str(data)` / the `{data}` of an f-string. */
  type Show = Dict -> string

  /** The legacy `CacheEntry(name, data, created, contents)`. */
  datatype LegacyEntry = LegacyEntry(name: string, data: string, created: nat, contents: string)

  type LegacyTier = map<string, LegacyEntry>

  /** The key both dictionaries use. */
  function LegacyKey(path: string, shown: string): string {
    "name: " + path + ", data: " + shown
  }

  /** The entry a miss stores. */
  function NewEntry(path: string, key: string, shown: string, now: nat, contents: string): LegacyEntry {
    LegacyEntry(path + ":" + key, shown, now, contents)
  }

  /** What a call answers and the tier it leaves behind. */
  datatype Lookup = Lookup(result: Result<string>, tier: LegacyTier)

  /** `get_markdown(template_path, data)` on the markdown dictionary `tier`.
      A hit answers the stored text and changes nothing; a miss answers the
      fresh load, and stores it only when the load succeeds. */
  function LegacyMarkdownSpec(show: Show, tier: LegacyTier, store: Store, path: string, data: Dict, now: nat)
    : (o: Lookup)
    ensures LegacyKey(path, show(data)) in tier ==> o == Lookup(Ok(tier[LegacyKey(path, show(data))].contents), tier)
    ensures LegacyKey(path, show(data)) !in tier ==> o.result == LegacyLoad(store, path, data)
    ensures o.result.Ok? ==> (LegacyKey(path, show(data)) in o.tier
                              && o.tier[LegacyKey(path, show(data))].contents == o.result.value)
    ensures o.result.Err? ==> o.tier == tier
    ensures o.tier.Keys == tier.Keys + (if o.result.Ok? then {LegacyKey(path, show(data))} else {})
    ensures forall k :: k in tier ==> o.tier[k] == tier[k]
  {
    var key := LegacyKey(path, show(data));
    if key in tier then Lookup(Ok(tier[key].contents), tier)
    else
      match LegacyLoad(store, path, data)
      case Err(e) => Lookup(Err(e), tier)
      case Ok(text) => Lookup(Ok(text), tier[key := NewEntry(path, key, show(data), now, text)])
  }

  /** The three legacy dictionaries: markdown, HTML and the transformer's
      memo. */
  datatype LegacyState = LegacyState(markdown: LegacyTier, html: LegacyTier, memo: Memo)

  /** What a `get_page` call answers, the dictionaries afterwards, and
      whether the converter ran. */
  datatype PageLookup = PageLookup(result: Result<string>, state: LegacyState, converted: bool)

  /** `get_page(template_path, data)`: a hit in the HTML dictionary answers
      the stored HTML; a miss takes the markdown through `get_markdown`,
      converts it with safe mode off through the memo, and stores the HTML
      under the same key. A failing load leaves the HTML dictionary and the
      memo alone. */
  function LegacyPageSpec(show: Show, render: Render, hash: Hash, state: LegacyState, store: Store, path: string,
                          data: Dict, now: nat)
    : (o: PageLookup)
    ensures LegacyKey(path, show(data)) in state.html
         ==> o == PageLookup(Ok(state.html[LegacyKey(path, show(data))].contents), state, false)
    ensures o.result.Ok? ==> (LegacyKey(path, show(data)) in o.state.html
                              && o.state.html[LegacyKey(path, show(data))].contents == o.result.value)
    ensures o.result.Err? ==> o.state.html == state.html && o.state.memo == state.memo && !o.converted
    ensures forall k :: k in state.html ==> k in o.state.html && o.state.html[k] == state.html[k]
    ensures forall k :: k in state.markdown ==> k in o.state.markdown && o.state.markdown[k] == state.markdown[k]
    ensures Grows(state.memo, o.state.memo)
  {
    var key := LegacyKey(path, show(data));
    if key in state.html then PageLookup(Ok(state.html[key].contents), state, false)
    else
      var md := LegacyMarkdownSpec(show, state.markdown, store, path, data, now);
      match md.result
      case Err(e) => PageLookup(Err(e), state.(markdown := md.tier), false)
      case Ok(markdown) =>
        var t := LegacyTransformSpec(render, hash, state.memo, markdown, false);
        var entry := NewEntry(path, key, show(data), now, t.html);
        PageLookup(Ok(t.html), LegacyState(md.tier, state.html[key := entry], t.memo), t.converted)
  }

  /** The two path dictionaries of the legacy page module. */
  class PageCache {
    var markdownCache: LegacyTier
    var htmlCache: LegacyTier

    constructor()
      ensures markdownCache == map[] && htmlCache == map[]
    {
      markdownCache := map[];
      htmlCache := map[];
    }

    /** `get_markdown`, as the source does it. */
    method GetMarkdown(show: Show, store: Store, path: string, data: Dict, now: nat) returns (r: Result<string>)
      modifies this
      ensures var o := LegacyMarkdownSpec(show, old(markdownCache), store, path, data, now);
        r == o.result && markdownCache == o.tier && htmlCache == old(htmlCache)
    {
      var key := LegacyKey(path, show(data));
      if key in markdownCache {
        return Ok(markdownCache[key].contents);
      }
      var text :- LoadMarkdownContents(store, path, data);
      markdownCache := markdownCache[key := NewEntry(path, key, show(data), now, text)];
      return Ok(text);
    }

    /** `get_page`, as the source does it, with the transformer's memo. */
    method GetPage(memo: MemoCache, converter: Converter, show: Show, hash: Hash, store: Store, path: string,
                   data: Dict, now: nat)
      returns (r: Result<string>)
      modifies this, memo, converter
      ensures var o := LegacyPageSpec(show, converter.render, hash,
                                       LegacyState(old(markdownCache), old(htmlCache), old(memo.memo)),
                                       store, path, data, now);
        && r == o.result
        && LegacyState(markdownCache, htmlCache, memo.memo) == o.state
        && converter.calls == old(converter.calls) + (if o.converted then 1 else 0)
    {
      var key := LegacyKey(path, show(data));
      if key in htmlCache {
        return Ok(htmlCache[key].contents);
      }
      var markdown :- GetMarkdown(show, store, path, data, now);
      var html := memo.Transform(converter, hash, markdown, false);
      htmlCache := htmlCache[key := NewEntry(path, key, show(data), now, html)];
      return Ok(html);
    }

    /** `clear_cache(reclaim_all_memory)`: both path dictionaries are
        emptied; the memo only when `reclaim` is set. */
    method ClearCache(memo: MemoCache, reclaim: bool)
      modifies this, memo
      ensures markdownCache == map[] && htmlCache == map[]
      ensures memo.memo == if reclaim then map[] else old(memo.memo)
    {
      markdownCache := map[];
      htmlCache := map[];
      if reclaim {
        memo.ClearCache();
      }
    }
  }

  /** The HTML of a page computed afresh: the legacy load, then the
      conversion with safe mode off (empty markdown stays empty). */
  function FreshHtml(store: Store, render: Render, path: string, data: Dict): Result<string> {
    var markdown :- LegacyLoad(store, path, data);
    Ok(if markdown == "" then markdown else render(markdown, false))
  }

  /** The key tells apart every two calls: no two (path, data) pairs
      share a key. */
  ghost predicate KeysDistinguish(show: Show) {
    forall p1, d1, p2, d2 :: LegacyKey(p1, show(d1)) == LegacyKey(p2, show(d2)) ==> p1 == p2 && d1 == d2
  }

  ghost predicate MarkdownCoherent(show: Show, tier: LegacyTier, store: Store) {
    forall p, d :: LegacyKey(p, show(d)) in tier ==> LegacyLoad(store, p, d) == Ok(tier[LegacyKey(p, show(d))].contents)
  }

  ghost predicate HtmlCoherent(show: Show, tier: LegacyTier, store: Store, render: Render) {
    forall p, d :: LegacyKey(p, show(d)) in tier ==> FreshHtml(store, render, p, d) == Ok(tier[LegacyKey(p, show(d))].contents)
  }

  /** Every entry of the three dictionaries holds what a fresh computation
      gives. */
  ghost predicate LegacyCoherent(show: Show, state: LegacyState, store: Store, render: Render, hash: Hash) {
    && MarkdownCoherent(show, state.markdown, store)
    && HtmlCoherent(show, state.html, store, render)
    && MemoCoherent(render, hash, state.memo, false)
  }

  /** A repeat `get_markdown` is a hit on the stored text. */
  lemma LegacyMarkdownRepeatHits(show: Show, tier: LegacyTier, store: Store, path: string, data: Dict,
                                 now: nat, later: nat)
    ensures var first := LegacyMarkdownSpec(show, tier, store, path, data, now);
      first.result.Ok? ==> LegacyMarkdownSpec(show, first.tier, store, path, data, later) == first
  {
  }

  /** A repeat `get_page` with the same path and data answers the same HTML,
      changes nothing and does not convert. */
  lemma LegacyPageRepeatHits(show: Show, render: Render, hash: Hash, state: LegacyState, store: Store,
                             path: string, data: Dict, now: nat, later: nat)
    ensures var first := LegacyPageSpec(show, render, hash, state, store, path, data, now);
      first.result.Ok? ==>
        LegacyPageSpec(show, render, hash, first.state, store, path, data, later)
        == PageLookup(first.result, first.state, false)
  {
  }

  /** The key holds the data: the same path with data shown differently is
      a different entry. */
  lemma DataIsInKey(path: string, shown1: string, shown2: string)
    requires shown1 != shown2
    ensures LegacyKey(path, shown1) != LegacyKey(path, shown2)
  {
    var prefix := "name: " + path + ", data: ";
    assert LegacyKey(path, shown1)[|prefix|..] == shown1;
    assert LegacyKey(path, shown2)[|prefix|..] == shown2;
  }

  /** The key is ambiguous in general: a path that itself holds `, data: `
      shares its key with a shorter path and other data. */
  lemma KeyIsAmbiguous()
    ensures LegacyKey("a, data: b", "c") == LegacyKey("a", "b, data: c")
  {
  }

  /** `get_markdown` on a coherent dictionary answers as a fresh load and
      keeps the dictionary coherent. */
  lemma LegacyMarkdownTransparent(show: Show, tier: LegacyTier, store: Store, path: string, data: Dict, now: nat)
    requires KeysDistinguish(show) && MarkdownCoherent(show, tier, store)
    ensures var o := LegacyMarkdownSpec(show, tier, store, path, data, now);
      o.result == LegacyLoad(store, path, data) && MarkdownCoherent(show, o.tier, store)
  {
    var o := LegacyMarkdownSpec(show, tier, store, path, data, now);
    var key := LegacyKey(path, show(data));
    if key !in tier && o.result.Ok? {
      forall p, d | LegacyKey(p, show(d)) in o.tier
        ensures LegacyLoad(store, p, d) == Ok(o.tier[LegacyKey(p, show(d))].contents)
      {
        if LegacyKey(p, show(d)) == key {
          assert p == path && d == data;
        }
      }
    }
  }

  /** `get_page` on coherent dictionaries answers as a fresh computation
      and keeps them coherent: the caches never change what a page shows
      while the store stays the same. */
  lemma LegacyPageTransparent(show: Show, render: Render, hash: Hash, state: LegacyState, store: Store,
                              path: string, data: Dict, now: nat)
    requires KeysDistinguish(show) && Injective(hash) && LegacyCoherent(show, state, store, render, hash)
    ensures var o := LegacyPageSpec(show, render, hash, state, store, path, data, now);
      o.result == FreshHtml(store, render, path, data) && LegacyCoherent(show, o.state, store, render, hash)
  {
    var key := LegacyKey(path, show(data));
    if key !in state.html {
      var md := LegacyMarkdownSpec(show, state.markdown, store, path, data, now);
      LegacyMarkdownTransparent(show, state.markdown, store, path, data, now);
      if md.result.Ok? {
        var t := LegacyTransformSpec(render, hash, state.memo, md.result.value, false);
        LegacyTransformTransparent(render, hash, state.memo, md.result.value, false);
        var tier := state.html[key := NewEntry(path, key, show(data), now, t.html)];
        forall p, d | LegacyKey(p, show(d)) in tier
          ensures FreshHtml(store, render, p, d) == Ok(tier[LegacyKey(p, show(d))].contents)
        {
          if LegacyKey(p, show(d)) == key {
            assert p == path && d == data;
          }
        }
      }
    }
  }

  /** A blank path never reaches the dictionaries while they are coherent:
      it raises TemplateNotFound every time. */
  lemma LegacyBlankPathNotFound(show: Show, render: Render, hash: Hash, state: LegacyState, store: Store,
                                path: string, data: Dict, now: nat)
    requires KeysDistinguish(show) && Injective(hash) && LegacyCoherent(show, state, store, render, hash)
    requires IsBlank(path)
    ensures LegacyPageSpec(show, render, hash, state, store, path, data, now).result == Err(TemplateNotFound(""))
  {
    LegacyPageTransparent(show, render, hash, state, store, path, data, now);
  }

  /** What `clear_cache` leaves behind is coherent, with or without
      reclaiming the memo, so the calls after it answer fresh results. */
  lemma ClearedStateCoherent(show: Show, render: Render, hash: Hash, memo: Memo, store: Store, reclaim: bool)
    requires MemoCoherent(render, hash, memo, false)
    ensures LegacyCoherent(show, LegacyState(map[], map[], if reclaim then map[] else memo), store, render, hash)
  {
  }

  /** After `clear_cache` the next `get_page` loads the page again: it
      answers the fresh load's outcome and stores it. */
  lemma ClearedPageReloads(show: Show, render: Render, hash: Hash, memo: Memo, store: Store, path: string,
                           data: Dict, now: nat)
    ensures var o := LegacyPageSpec(show, render, hash, LegacyState(map[], map[], memo), store, path, data, now);
      && (o.result.Ok? <==> LegacyLoad(store, path, data).Ok?)
      && (o.result.Ok? ==> (LegacyKey(path, show(data)) in o.state.markdown
                            && Ok(o.state.markdown[LegacyKey(path, show(data))].contents) == LegacyLoad(store, path, data)))
  {
  }
}
