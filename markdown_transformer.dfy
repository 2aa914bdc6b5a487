/**
 * Markdown-to-HTML conversion of the current pipeline
 * (infrastructure/markdown_transformer.py): conversions are memoised in the
 * HTML tier of the cache store under the content hash of the markdown.
 *
 * The converter (markdown2) and the hash (md5) are foreign code: the
 * converter is a pure function of the text and the safe-mode flag, wrapped
 * in an object that counts its calls, and the hash is a parameter. Where a
 * property needs the hash to behave like md5 -- no collisions on the texts
 * involved, 32 lower-case hex digits -- that is a stated requirement.
 */
module Transformer {
  import opened Outcomes
  import opened Caching

  /** markdown2's conversion of a text with a safe-mode flag. */
  type Render = (string, bool) -> string

  /** `get_hash`: the md5 hex digest of the UTF-8 encoded text. */
  type Hash = string -> string

  /** The converter: conversion itself is pure; the object counts how often
      it was asked to convert. */
  class Converter {
    const render: Render
    var calls: nat

    constructor(render: Render)
      ensures this.render == render && calls == 0
    {
      this.render := render;
      calls := 0;
    }

    method Convert(text: string, safeMode: bool) returns (html: string)
      modifies this
      ensures html == render(text, safeMode)
      ensures calls == old(calls) + 1
    {
      html := render(text, safeMode);
      calls := calls + 1;
    }
  }

  const HexDigits: set<char> := {'0', '1', '2', '3', '4', '5', '6', '7', '8', '9', 'a', 'b', 'c', 'd', 'e', 'f'}

  /** What `hexdigest()` returns: 32 lower-case hex digits. */
  predicate IsHexDigest(s: string) {
    |s| == 32 && forall i :: 0 <= i < |s| ==> s[i] in HexDigits
  }

  /** The hash behaves as md5 is taken to: hex digests only. */
  ghost predicate HexDigests(hash: Hash) {
    forall t :: IsHexDigest(hash(t))
  }

  /** The hash has no collisions. */
  ghost predicate Injective(hash: Hash) {
    forall s, t :: hash(s) == hash(t) ==> s == t
  }

  /** The name a conversion is stored under. */
  function EntryName(hashVal: string): string {
    "markdown_transformer:" + hashVal
  }

  /** The returned HTML, the HTML tier afterwards, and whether the converter
      ran. */
  datatype Transformed = Transformed(html: string, tier: Tier, converted: bool)

  /** `transform(text, safe_mode)` on the HTML tier `tier`. Empty text comes
      back untouched; otherwise the tier ends up holding the returned HTML
      under the text's hash, the converter runs exactly on a miss, and no
      other key of the tier changes. */
  function TransformSpec(render: Render, hash: Hash, tier: Tier, text: string, safeMode: bool, now: Timestamp)
    : (r: Transformed)
    ensures text == "" ==> r == Transformed(text, tier, false)
    ensures text != "" ==> hash(text) in r.tier && r.tier[hash(text)].contents == r.html
    ensures r.converted <==> text != "" && hash(text) !in tier
    ensures !r.converted ==> r.tier == tier
    ensures r.converted ==> r.html == render(text, safeMode)
    ensures r.converted ==> r.tier == tier[hash(text) := CacheEntry(hash(text), EntryName(hash(text)), now, r.html)]
  {
    if text == "" then Transformed(text, tier, false)
    else
      var hashVal := hash(text);
      match Find(tier, hashVal)
      case Some(entry) => Transformed(entry.contents, tier, false)
      case None =>
        var html := render(text, safeMode);
        Transformed(html, tier[hashVal := CacheEntry(hashVal, EntryName(hashVal), now, html)], true)
  }

  /** `transform`, as the source does it: look up, and convert and store
      on a miss. Only the HTML tier is written. */
  method Transform(cache: MemoryCache, converter: Converter, hash: Hash, text: string, safeMode: bool, now: Timestamp)
    returns (html: string)
    modifies cache, converter
    ensures var r := TransformSpec(converter.render, hash, old(cache.htmlCache), text, safeMode, now);
      && html == r.html
      && cache.htmlCache == r.tier
      && cache.markdownCache == old(cache.markdownCache)
      && converter.calls == old(converter.calls) + (if r.converted then 1 else 0)
  {
    if text == "" {
      return text;
    }
    var hashVal := hash(text);
    var entry := cache.GetHtml(hashVal);
    if entry.Some? {
      return entry.value.contents;
    }
    html := converter.Convert(text, safeMode);
    var _ := cache.AddHtml(hashVal, EntryName(hashVal), html, now);
  }

  /** A repeat call with the same text is a hit: it returns the same HTML,
      leaves the tier as it is and does not convert, whatever its safe-mode
      flag. So two identical bodies share one entry and one conversion. */
  lemma RepeatCallHits(render: Render, hash: Hash, tier: Tier, text: string, safeMode: bool, again: bool,
                       now: Timestamp, later: Timestamp)
    ensures var first := TransformSpec(render, hash, tier, text, safeMode, now);
      TransformSpec(render, hash, first.tier, text, again, later) == Transformed(first.html, first.tier, false)
  {
  }

  /** The safe-mode flag is not part of the key: on a hit the stored HTML
      comes back whichever flag the call passes. */
  lemma SafeModeNotInKey(render: Render, hash: Hash, tier: Tier, text: string, now: Timestamp)
    requires text != "" && hash(text) in tier
    ensures TransformSpec(render, hash, tier, text, true, now).html
         == TransformSpec(render, hash, tier, text, false, now).html
         == tier[hash(text)].contents
  {
  }

  /** Every hash entry of the tier holds the conversion, with the safe-mode
      flag `safeMode`, of the text it is keyed by. */
  ghost predicate Coherent(render: Render, hash: Hash, tier: Tier, safeMode: bool) {
    forall t :: t != "" && hash(t) in tier ==> tier[hash(t)].contents == render(t, safeMode)
  }

  /** With a collision-free hash and calls that all pass the same flag, the
      memo is invisible: the result is the conversion of the text, and the
      tier stays coherent. */
  lemma TransformTransparent(render: Render, hash: Hash, tier: Tier, text: string, safeMode: bool, now: Timestamp)
    requires Injective(hash) && Coherent(render, hash, tier, safeMode)
    ensures var r := TransformSpec(render, hash, tier, text, safeMode, now);
      && r.html == (if text == "" then text else render(text, safeMode))
      && Coherent(render, hash, r.tier, safeMode)
  {
    var r := TransformSpec(render, hash, tier, text, safeMode, now);
    if r.converted {
      forall t | t != "" && hash(t) in r.tier
        ensures r.tier[hash(t)].contents == render(t, safeMode)
      {
        if hash(t) == hash(text) {
          assert t == text;
        }
      }
    }
  }

  /** A collision on two different texts makes the memo visible: the second
      text gets the first text's HTML. */
  lemma CollisionServesOtherText(render: Render, hash: Hash, tier: Tier, s: string, t: string, now: Timestamp)
    requires s != "" && t != "" && hash(s) == hash(t)
    ensures var first := TransformSpec(render, hash, tier, s, false, now);
      TransformSpec(render, hash, first.tier, t, false, now).html == first.html
  {
  }
}
