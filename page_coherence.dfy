/**
 * The caches of the current pipeline are invisible: as long as every entry
 * holds what a fresh computation from the same store would give, answers
 * from the caches equal fresh answers, and storing keeps that so.
 *
 * This needs a hash without collisions whose values are never `html: <path>`
 * keys, so that the converter's memo and the page entries never overwrite
 * each other in the shared HTML tier. Hex digests, as md5 gives, are never
 * such keys (`HexDigestsAreNoPageKeys`); injectivity is the idealisation of
 * md5 that the memo's own coherence needs. Both together are met by some
 * hash (`HypothesesSatisfiable`).
 */
module PageCoherence {
  import opened Outcomes
  import opened PyStr
  import opened Dicts
  import opened ContentStore
  import opened Caching
  import opened Transformer
  import opened PageVariables
  import opened InlineVariables
  import opened Page

  /** Markdown loaded afresh, with request data applied when there is any. */
  function FreshMarkdown(store: Store, path: string, data: Dict): Result<string> {
    var text :- LoadMarkdownContents(store, path);
    ApplyData(text, data)
  }

  /** A page's HTML computed afresh, up to its inline variables: load,
      take the declarations out, convert with safe mode off, substitute. */
  function PageHtml(store: Store, render: Render, path: string): Result<string> {
    var markdown :- LoadMarkdownContents(store, path);
    var extracted := ExtractSpec(markdown, []);
    var html := if extracted.markdown == "" then extracted.markdown else render(extracted.markdown, false);
    SubstituteSpec(html, extracted.vars)
  }

  /** A page rendered afresh, without any cache. */
  function RenderPage(store: Store, render: Render, path: string, data: Dict): Result<string> {
    if IsBlank(path) then Err(ArgumentExpected("template_path"))
    else
      var html :- PageHtml(store, render, NormalisePath(path));
      SubstituteSpec(html, data)
  }

  ghost predicate MarkdownCoherent(tier: Tier, store: Store) {
    forall p :: MarkdownKey(p) in tier ==> LoadMarkdownContents(store, p) == Ok(tier[MarkdownKey(p)].contents)
  }

  ghost predicate HtmlCoherent(tier: Tier, store: Store, render: Render) {
    forall p :: HtmlKey(p) in tier ==> PageHtml(store, render, p) == Ok(tier[HtmlKey(p)].contents)
  }

  /** Every entry of both tiers holds what a fresh computation gives. */
  ghost predicate Coherent(tiers: Tiers, store: Store, render: Render, hash: Hash) {
    && MarkdownCoherent(tiers.markdown, store)
    && HtmlCoherent(tiers.html, store, render)
    && Transformer.Coherent(render, hash, tiers.html, false)
  }

  lemma MarkdownKeyInjective(p: string, q: string)
    requires MarkdownKey(p) == MarkdownKey(q)
    ensures p == q
  {
    assert p == MarkdownKey(p)[10..];
  }

  lemma HtmlKeyInjective(p: string, q: string)
    requires HtmlKey(p) == HtmlKey(q)
    ensures p == q
  {
    assert p == HtmlKey(p)[6..];
  }

  /** No content hash is a page key. */
  ghost predicate NoPageKeys(hash: Hash) {
    forall t, p :: hash(t) != HtmlKey(p)
  }

  /** A hex digest is no page key. */
  lemma HashIsNoPageKey(hash: Hash, t: string, p: string)
    requires HexDigests(hash)
    ensures hash(t) != HtmlKey(p)
  {
    assert IsHexDigest(hash(t));
    assert HtmlKey(p)[4] == ':';
  }

  /** A hash giving hex digests only, as md5 does, never gives a page key. */
  lemma HexDigestsAreNoPageKeys(hash: Hash)
    requires HexDigests(hash)
    ensures NoPageKeys(hash)
  {
    forall t, p
      ensures hash(t) != HtmlKey(p)
    {
      HashIsNoPageKey(hash, t, p);
    }
  }

  /** The hypotheses of the coherence theorems can be met: prefixing the
      text with `#` is a hash without collisions that never gives a page
      key. */
  lemma HypothesesSatisfiable()
    ensures exists hash: Hash :: Injective(hash) && NoPageKeys(hash)
  {
    var h: Hash := t => "#" + t;
    assert Injective(h) by {
      forall s, t | h(s) == h(t)
        ensures s == t
      {
        assert s == h(s)[1..] && t == h(t)[1..];
      }
    }
    assert NoPageKeys(h) by {
      forall t, p
        ensures h(t) != HtmlKey(p)
      {
        assert h(t)[0] != HtmlKey(p)[0];
      }
    }
  }

  /** `get_markdown` on a coherent tier answers as a fresh load does and
      keeps the tier coherent. */
  lemma MarkdownTransparent(tier: Tier, store: Store, path: string, data: Dict, now: Timestamp)
    requires MarkdownCoherent(tier, store)
    ensures var o := GetMarkdownSpec(tier, store, path, data, now);
      o.result == FreshMarkdown(store, path, data) && MarkdownCoherent(o.tier, store)
  {
    var o := GetMarkdownSpec(tier, store, path, data, now);
    var key := MarkdownKey(path);
    if key !in tier && LoadMarkdownContents(store, path).Ok? {
      forall p | MarkdownKey(p) in o.tier
        ensures LoadMarkdownContents(store, p) == Ok(o.tier[MarkdownKey(p)].contents)
      {
        if MarkdownKey(p) == key {
          MarkdownKeyInjective(p, path);
        }
      }
    }
  }

  /** The miss path keeps both tiers coherent and yields the fresh HTML. */
  lemma BuildPageCoherent(tiers: Tiers, store: Store, render: Render, hash: Hash, path: string, now: Timestamp)
    requires Injective(hash) && NoPageKeys(hash) && Coherent(tiers, store, render, hash)
    ensures var built := BuildPage(tiers, store, render, hash, path, now);
      built.html == PageHtml(store, render, path) && Coherent(built.tiers, store, render, hash)
  {
    var md := GetMarkdownSpec(tiers.markdown, store, path, [], now);
    MarkdownTransparent(tiers.markdown, store, path, [], now);
    if md.result.Ok? {
      var extracted := ExtractSpec(md.result.value, []);
      var converted := TransformSpec(render, hash, tiers.html, extracted.markdown, false, now);
      TransformTransparent(render, hash, tiers.html, extracted.markdown, false, now);
      assert HtmlCoherent(converted.tier, store, render) by {
        forall p | HtmlKey(p) in converted.tier
          ensures PageHtml(store, render, p) == Ok(converted.tier[HtmlKey(p)].contents)
        {
          if converted.converted {
            assert hash(extracted.markdown) != HtmlKey(p);
          }
        }
      }
      var inlined := SubstituteSpec(converted.html, extracted.vars);
      if inlined.Ok? {
        var key := HtmlKey(path);
        var tier := converted.tier[key := CacheEntry(key, key, now, inlined.value)];
        forall p | HtmlKey(p) in tier
          ensures PageHtml(store, render, p) == Ok(tier[HtmlKey(p)].contents)
        {
          if HtmlKey(p) == key {
            HtmlKeyInjective(p, path);
          }
        }
        forall t | t != "" && hash(t) in tier
          ensures tier[hash(t)].contents == render(t, false)
        {
          assert hash(t) != HtmlKey(path);
        }
      }
    }
  }

  /** `get_page` on coherent tiers answers as a fresh render does and keeps
      the tiers coherent: the caches never change what a page shows. */
  lemma PageTransparent(tiers: Tiers, store: Store, render: Render, hash: Hash, path: string, data: Dict,
                        now: Timestamp)
    requires Injective(hash) && NoPageKeys(hash) && Coherent(tiers, store, render, hash)
    ensures var o := GetPageSpec(tiers, store, render, hash, path, data, now);
      o.result == RenderPage(store, render, path, data) && Coherent(o.tiers, store, render, hash)
  {
    if !IsBlank(path) {
      var p := NormalisePath(path);
      if HtmlKey(p) in tiers.html {
        ApplyDataIsSubstitution(tiers.html[HtmlKey(p)].contents, data);
      } else {
        BuildPageCoherent(tiers, store, render, hash, p, now);
      }
    }
  }

  /** Empty tiers are coherent. */
  lemma EmptyTiersCoherent(store: Store, render: Render, hash: Hash)
    ensures Coherent(Tiers(map[], map[]), store, render, hash)
  {
  }

  /** One call of `get_page`: its path, its request data and the time it is
      made. */
  datatype Request = Request(path: string, data: Dict, now: Timestamp)

  /** The answers to a run of `get_page` calls, each made on the tiers the
      call before it left. */
  function Serve(tiers: Tiers, store: Store, render: Render, hash: Hash, requests: seq<Request>)
    : (answers: seq<Result<string>>)
    ensures |answers| == |requests|
    decreases |requests|
  {
    if requests == [] then []
    else
      var o := GetPageSpec(tiers, store, render, hash, requests[0].path, requests[0].data, requests[0].now);
      [o.result] + Serve(o.tiers, store, render, hash, requests[1..])
  }

  /** Every call of a run on coherent tiers answers as a fresh render does. */
  lemma {:induction false} ServeTransparent(tiers: Tiers, store: Store, render: Render, hash: Hash,
                                            requests: seq<Request>)
    requires Injective(hash) && NoPageKeys(hash) && Coherent(tiers, store, render, hash)
    ensures var answers := Serve(tiers, store, render, hash, requests);
      forall i :: 0 <= i < |requests| ==> answers[i] == RenderPage(store, render, requests[i].path, requests[i].data)
    decreases |requests|
  {
    if requests != [] {
      var first := requests[0];
      var o := GetPageSpec(tiers, store, render, hash, first.path, first.data, first.now);
      PageTransparent(tiers, store, render, hash, first.path, first.data, first.now);
      ServeTransparent(o.tiers, store, render, hash, requests[1..]);
      var answers := Serve(tiers, store, render, hash, requests);
      assert answers == [o.result] + Serve(o.tiers, store, render, hash, requests[1..]);
      forall i | 1 <= i < |requests|
        ensures answers[i] == RenderPage(store, render, requests[i].path, requests[i].data)
      {
        assert requests[1..][i - 1] == requests[i];
      }
    }
  }

  /** Starting from a fresh cache, every call of any run answers as a fresh
      render does: the caches never change what a page shows. */
  lemma FreshCacheServesFreshRenders(store: Store, render: Render, hash: Hash, requests: seq<Request>)
    requires Injective(hash) && NoPageKeys(hash)
    ensures var answers := Serve(Tiers(map[], map[]), store, render, hash, requests);
      forall i :: 0 <= i < |requests| ==> answers[i] == RenderPage(store, render, requests[i].path, requests[i].data)
  {
    EmptyTiersCoherent(store, render, hash);
    ServeTransparent(Tiers(map[], map[]), store, render, hash, requests);
  }
}
