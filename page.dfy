/**
 * Page rendering of the current pipeline (infrastructure/page.py): loading a
 * template with its imports, and the two path-keyed cache tiers around it.
 *
 * The markdown tier holds a template's loaded markdown, before any request
 * data is applied, under `markdown: <path>`. The HTML tier holds a page's
 * HTML after its inline variables and before request data, under
 * `html: <path>`; the converter's memo shares that tier under content
 * hashes. One cache object, one store, one converter and one clock reading
 * are passed to every operation.
 */
module Page {
  import opened Outcomes
  import opened PyStr
  import opened Dicts
  import opened ContentStore
  import opened Caching
  import opened Transformer
  import opened PageImports
  import opened PageVariables
  import opened InlineVariables

  function MarkdownKey(path: string): string {
    "markdown: " + path
  }

  function HtmlKey(path: string): string {
    "html: " + path
  }

  /** `template_path.strip().lower()` */
  function NormalisePath(path: string): string {
    Lower(Strip(path))
  }

  /** `get_page_markdown`: a blank path raises TemplateNotFound before the
      store is asked. */
  function GetPageMarkdown(store: Store, path: string): (r: Result<Option<string>>)
    ensures IsBlank(path) ==> r == Err(TemplateNotFound(""))
    ensures !IsBlank(path) ==> r == AsResult(Answer(store.pages, path), path)
  {
    if IsBlank(path) then Err(TemplateNotFound(""))
    else PageText(store, path)
  }

  /** `load_markdown_contents`: the template's lines with their imports
      expanded, joined again and stripped. An empty path, a page the store
      answers with `None` and an empty page all load as empty text. */
  function LoadMarkdownContents(store: Store, path: string): (r: Result<string>)
    ensures path == "" ==> r == Ok("")
    ensures path != "" && IsBlank(path) ==> r == Err(TemplateNotFound(""))
    ensures !IsBlank(path) && Answer(store.pages, path).Absent? ==> r == Ok("")
    ensures !IsBlank(path) && Answer(store.pages, path).Raises? ==> r == Err(TemplateNotFound(path))
    ensures r.Ok? ==> Strip(r.value) == r.value
  {
    if path == "" then Ok("")
    else
      var page :- GetPageMarkdown(store, path);
      if page.None? || page.value == "" then Ok("")
      else
        var lines :- ProcessImports(store, Split(page.value, '\n'), ImportFuel);
        StripIdempotent(Join(lines, '\n'));
        Ok(Strip(Join(lines, '\n')))
  }

  /** A page without import directives loads as its own text, stripped. */
  lemma PlainPageLoadsStripped(store: Store, path: string, text: string)
    requires !IsBlank(path) && Answer(store.pages, path) == Text(text)
    requires NoImports(Split(text, '\n'))
    ensures LoadMarkdownContents(store, path) == Ok(Strip(text))
  {
    if text == "" {
      BlankIffStripEmpty(text);
    }
  }

  /** Request data applied to cached contents: only when there is any. */
  function ApplyData(contents: string, data: Dict): Result<string> {
    if data == [] then Ok(contents) else SubstituteSpec(contents, data)
  }

  /** Skipping the substitution for empty data changes nothing. */
  lemma ApplyDataIsSubstitution(contents: string, data: Dict)
    ensures ApplyData(contents, data) == SubstituteSpec(contents, data)
  {
  }

  /** The result of `get_markdown` and the markdown tier afterwards. */
  datatype MarkdownOutcome = MarkdownOutcome(result: Result<string>, tier: Tier)

  /** `get_markdown(path, data)` on the markdown tier `tier`. A hit is
      answered from the tier; a miss loads the template and stores the text
      before the request data is applied; a failed load stores nothing.
      Entries already in the tier are never replaced. */
  function GetMarkdownSpec(tier: Tier, store: Store, path: string, data: Dict, now: Timestamp)
    : (r: MarkdownOutcome)
    ensures MarkdownKey(path) in tier ==> r == MarkdownOutcome(ApplyData(tier[MarkdownKey(path)].contents, data), tier)
    ensures MarkdownKey(path) !in tier && LoadMarkdownContents(store, path).Err?
      ==> r == MarkdownOutcome(Err(LoadMarkdownContents(store, path).error), tier)
    ensures MarkdownKey(path) !in tier && LoadMarkdownContents(store, path).Ok? ==>
      var text := LoadMarkdownContents(store, path).value;
      && r.tier == tier[MarkdownKey(path) := CacheEntry(MarkdownKey(path), MarkdownKey(path), now, text)]
      && r.result == ApplyData(text, data)
  {
    var key := MarkdownKey(path);
    match Find(tier, key)
    case Some(entry) => MarkdownOutcome(ApplyData(entry.contents, data), tier)
    case None =>
      match LoadMarkdownContents(store, path)
      case Err(e) => MarkdownOutcome(Err(e), tier)
      case Ok(text) => MarkdownOutcome(ApplyData(text, data), tier[key := CacheEntry(key, key, now, text)])
  }

  /** `get_markdown`, step by step on the cache object. */
  method GetMarkdown(cache: MemoryCache, store: Store, path: string, data: Dict, now: Timestamp)
    returns (r: Result<string>)
    modifies cache
    ensures var o := GetMarkdownSpec(old(cache.markdownCache), store, path, data, now);
      r == o.result && cache.markdownCache == o.tier && cache.htmlCache == old(cache.htmlCache)
  {
    var key := MarkdownKey(path);
    var entry := cache.GetMarkdown(key);
    if entry.Some? {
      if data == [] {
        return Ok(entry.value.contents);
      }
      r := ProcessVariables(entry.value.contents, data);
      return;
    }
    var text :- LoadMarkdownContents(store, path);
    var _ := cache.AddMarkdown(key, key, text, now);
    if data != [] {
      r := ProcessVariables(text, data);
    } else {
      r := Ok(text);
    }
  }

  /** How the miss path of `get_page` ends before request data: the HTML
      with its inline variables applied (or the error that stopped it), the
      tiers afterwards, and whether the converter ran. */
  datatype Stage = Stage(html: Result<string>, tiers: Tiers, converted: bool)

  /** The miss path of `get_page` for a normalised path, up to storing the
      HTML: load the markdown through its tier, take out the inline
      declarations, convert through the hash memo with safe mode off, apply
      the inline variables and store the result. */
  function BuildPage(tiers: Tiers, store: Store, render: Render, hash: Hash, path: string, now: Timestamp)
    : (r: Stage)
    ensures var md := GetMarkdownSpec(tiers.markdown, store, path, [], now);
      && r.tiers.markdown == md.tier
      && (md.result.Err? ==> r == Stage(md.result, Tiers(md.tier, tiers.html), false))
      && (md.result.Ok? ==>
            var extracted := ExtractSpec(md.result.value, []);
            var converted := TransformSpec(render, hash, tiers.html, extracted.markdown, false, now);
            r.html == SubstituteSpec(converted.html, extracted.vars) && r.converted == converted.converted)
    ensures r.html.Ok? ==>
      HtmlKey(path) in r.tiers.html && r.tiers.html[HtmlKey(path)] == CacheEntry(HtmlKey(path), HtmlKey(path), now, r.html.value)
    ensures HtmlKey(path) !in tiers.html ==> Extends(tiers.markdown, r.tiers.markdown) && Extends(tiers.html, r.tiers.html)
  {
    var md := GetMarkdownSpec(tiers.markdown, store, path, [], now);
    match md.result
    case Err(e) => Stage(Err(e), Tiers(md.tier, tiers.html), false)
    case Ok(markdown) =>
      var extracted := ExtractSpec(markdown, []);
      var converted := TransformSpec(render, hash, tiers.html, extracted.markdown, false, now);
      match SubstituteSpec(converted.html, extracted.vars)
      case Err(e) => Stage(Err(e), Tiers(md.tier, converted.tier), converted.converted)
      case Ok(html) =>
        Stage(Ok(html), Tiers(md.tier, converted.tier[HtmlKey(path) := CacheEntry(HtmlKey(path), HtmlKey(path), now, html)]),
              converted.converted)
  }

  /** The result of `get_page`, the tiers afterwards and whether the
      converter ran. */
  datatype PageOutcome = PageOutcome(result: Result<string>, tiers: Tiers, converted: bool)

  /** Every entry of `before` is still in `after`, unchanged. */
  predicate Extends(before: Tier, after: Tier) {
    forall k :: k in before ==> k in after && after[k] == before[k]
  }

  /** `get_page(path, data)` on the tiers `tiers`. A blank path raises
      ArgumentExpected and touches nothing; the path is normalised; a hit
      on the HTML tier is answered from it without conversion; a miss
      builds the page and applies the request data after the store. The
      tiers only grow: no entry is ever replaced. */
  function GetPageSpec(tiers: Tiers, store: Store, render: Render, hash: Hash, path: string, data: Dict, now: Timestamp)
    : (r: PageOutcome)
    ensures IsBlank(path) ==> r == PageOutcome(Err(ArgumentExpected("template_path")), tiers, false)
    ensures !IsBlank(path) && HtmlKey(NormalisePath(path)) in tiers.html ==>
      r == PageOutcome(ApplyData(tiers.html[HtmlKey(NormalisePath(path))].contents, data), tiers, false)
    ensures !IsBlank(path) && HtmlKey(NormalisePath(path)) !in tiers.html ==>
      var built := BuildPage(tiers, store, render, hash, NormalisePath(path), now);
      && r.tiers == built.tiers && r.converted == built.converted
      && (built.html.Err? ==> r.result == built.html)
      && (built.html.Ok? ==> r.result == SubstituteSpec(r.tiers.html[HtmlKey(NormalisePath(path))].contents, data))
    ensures Extends(tiers.markdown, r.tiers.markdown) && Extends(tiers.html, r.tiers.html)
  {
    if IsBlank(path) then PageOutcome(Err(ArgumentExpected("template_path")), tiers, false)
    else
      var p := NormalisePath(path);
      match Find(tiers.html, HtmlKey(p))
      case Some(entry) => PageOutcome(ApplyData(entry.contents, data), tiers, false)
      case None =>
        var built := BuildPage(tiers, store, render, hash, p, now);
        PageOutcome(if built.html.Err? then Err(built.html.error) else SubstituteSpec(built.html.value, data),
                    built.tiers, built.converted)
  }

  /** `get_page`, step by step on the cache object and the converter. */
  method GetPage(cache: MemoryCache, converter: Converter, store: Store, hash: Hash, path: string, data: Dict,
                 now: Timestamp)
    returns (r: Result<string>)
    modifies cache, converter
    ensures var o := GetPageSpec(old(cache.Snapshot()), store, converter.render, hash, path, data, now);
      && r == o.result
      && cache.Snapshot() == o.tiers
      && converter.calls == old(converter.calls) + (if o.converted then 1 else 0)
  {
    BlankIffStripEmpty(path);
    if path == "" || Strip(path) == "" {
      return Err(ArgumentExpected("template_path"));
    }
    var p := Lower(Strip(path));
    var key := HtmlKey(p);
    var entry := cache.GetHtml(key);
    if entry.Some? {
      var contents := entry.value.contents;
      if data != [] {
        r := ProcessVariables(contents, data);
        return;
      }
      return Ok(contents);
    }
    var markdown :- GetMarkdown(cache, store, p, [], now);
    var inlineVars: Dict;
    markdown, inlineVars := GetInlineVariables(markdown, []);
    var html := Transform(cache, converter, hash, markdown, false, now);
    html :- ProcessVariables(html, inlineVars);
    var _ := cache.AddHtml(key, key, html, now);
    r := ProcessVariables(html, data);
  }

  /** Normalising keeps a non-blank path non-blank. */
  lemma NormalisedNotBlank(path: string)
    requires !IsBlank(path)
    ensures !IsBlank(NormalisePath(path))
    ensures NormalisePath(NormalisePath(path)) == NormalisePath(path)
  {
    BlankIffStripEmpty(path);
    StripLower(Strip(path));
    StripIdempotent(path);
    BlankIffStripEmpty(NormalisePath(path));
    NormaliseIdempotent(path);
  }

  /** The path is looked up only after `strip().lower()`: a path and its
      normalised form render alike and leave the same tiers. */
  lemma NormalisedPathSameOutcome(tiers: Tiers, store: Store, render: Render, hash: Hash, path: string, data: Dict,
                                  now: Timestamp)
    requires !IsBlank(path)
    ensures GetPageSpec(tiers, store, render, hash, path, data, now)
         == GetPageSpec(tiers, store, render, hash, NormalisePath(path), data, now)
  {
    NormalisedNotBlank(path);
  }

  /** Request data is never cached: whatever the data, `get_page` leaves the
      same tiers and converts or not alike. */
  lemma RequestDataNotCached(tiers: Tiers, store: Store, render: Render, hash: Hash, path: string,
                             data: Dict, other: Dict, now: Timestamp)
    ensures var a := GetPageSpec(tiers, store, render, hash, path, data, now);
      var b := GetPageSpec(tiers, store, render, hash, path, other, now);
      a.tiers == b.tiers && a.converted == b.converted
  {
  }

  /** Once a page rendered, a repeat request for it is answered from the
      HTML tier: nothing is loaded, converted or stored, and the same data
      gives the same result. */
  lemma PageRepeatHits(tiers: Tiers, store: Store, render: Render, hash: Hash, path: string,
                       data: Dict, again: Dict, now: Timestamp, later: Timestamp)
    requires GetPageSpec(tiers, store, render, hash, path, data, now).result.Ok?
    ensures var first := GetPageSpec(tiers, store, render, hash, path, data, now);
      var second := GetPageSpec(first.tiers, store, render, hash, path, again, later);
      && second.tiers == first.tiers
      && !second.converted
      && (again == data ==> second.result == first.result)
  {
    var first := GetPageSpec(tiers, store, render, hash, path, data, now);
    var p := NormalisePath(path);
    if HtmlKey(p) !in tiers.html {
      var built := BuildPage(tiers, store, render, hash, p, now);
      assert built.html.Ok?;
      assert HtmlKey(p) in first.tiers.html && first.tiers.html[HtmlKey(p)].contents == built.html.value;
      ApplyDataIsSubstitution(built.html.value, data);
    }
  }
}
