/**
 * Markdown-to-HTML conversion of the legacy pipeline
 * (_impl/markdown_transformer.py): conversions are memoised in a module
 * dictionary of its own, from content hash to HTML, which only
 * `clear_cache` empties. The module dictionary is the field of one memo
 * object.
 */
module LegacyTransformer {
  import opened Transformer

  type Memo = map<string, string>

  /** The returned HTML, the memo afterwards and whether the converter
      ran. */
  datatype Memoised = Memoised(html: string, memo: Memo, converted: bool)

  /** Every entry of `before` is still in `after`, unchanged. */
  predicate Grows(before: Memo, after: Memo) {
    forall k :: k in before ==> k in after && after[k] == before[k]
  }

  /** `transform(text, safe_mode)` on the memo `memo`. Empty text comes back
      untouched; otherwise the memo ends up mapping the text's hash to the
      returned HTML, the converter runs exactly on a miss, and the memo only
      grows. */
  function LegacyTransformSpec(render: Render, hash: Hash, memo: Memo, text: string, safeMode: bool)
    : (r: Memoised)
    ensures text == "" ==> r == Memoised(text, memo, false)
    ensures text != "" ==> hash(text) in r.memo && r.memo[hash(text)] == r.html
    ensures r.converted <==> text != "" && hash(text) !in memo
    ensures r.converted ==> r.html == render(text, safeMode) && r.memo.Keys == memo.Keys + {hash(text)}
    ensures !r.converted ==> r.memo == memo
    ensures Grows(memo, r.memo)
  {
    if text == "" then Memoised(text, memo, false)
    else
      var hashVal := hash(text);
      if hashVal in memo then Memoised(memo[hashVal], memo, false)
      else
        var html := render(text, safeMode);
        Memoised(html, memo[hashVal := html], true)
  }

  class MemoCache {
    var memo: Memo

    constructor()
      ensures memo == map[]
    {
      memo := map[];
    }

    /** `transform`, as the source does it. */
    method Transform(converter: Converter, hash: Hash, text: string, safeMode: bool) returns (html: string)
      modifies this, converter
      ensures var r := LegacyTransformSpec(converter.render, hash, old(memo), text, safeMode);
        && html == r.html
        && memo == r.memo
        && converter.calls == old(converter.calls) + (if r.converted then 1 else 0)
    {
      if text == "" {
        return text;
      }
      var hashVal := hash(text);
      if hashVal in memo {
        return memo[hashVal];
      }
      html := converter.Convert(text, safeMode);
      memo := memo[hashVal := html];
    }

    /** `clear_cache` */
    method ClearCache()
      modifies this
      ensures memo == map[]
    {
      memo := map[];
    }
  }

  /** A repeat call with the same text returns the same HTML without
      converting, whatever its safe-mode flag. */
  lemma LegacyRepeatCallHits(render: Render, hash: Hash, memo: Memo, text: string, safeMode: bool, again: bool)
    ensures var first := LegacyTransformSpec(render, hash, memo, text, safeMode);
      LegacyTransformSpec(render, hash, first.memo, text, again) == Memoised(first.html, first.memo, false)
  {
  }

  /** After `clear_cache` the next call converts again. */
  lemma ClearedMemoRecomputes(render: Render, hash: Hash, text: string, safeMode: bool)
    requires text != ""
    ensures LegacyTransformSpec(render, hash, map[], text, safeMode) == Memoised(render(text, safeMode), map[hash(text) := render(text, safeMode)], true)
  {
  }

  /** Every entry of the memo holds the conversion, with safe mode
      `safeMode`, of the text it is keyed by. */
  ghost predicate MemoCoherent(render: Render, hash: Hash, memo: Memo, safeMode: bool) {
    forall t :: t != "" && hash(t) in memo ==> memo[hash(t)] == render(t, safeMode)
  }

  /** With a collision-free hash and one safe-mode flag, the memo is
      invisible: the result is the conversion, and the memo stays
      coherent. */
  lemma LegacyTransformTransparent(render: Render, hash: Hash, memo: Memo, text: string, safeMode: bool)
    requires Injective(hash) && MemoCoherent(render, hash, memo, safeMode)
    ensures var r := LegacyTransformSpec(render, hash, memo, text, safeMode);
      && r.html == (if text == "" then text else render(text, safeMode))
      && MemoCoherent(render, hash, r.memo, safeMode)
  {
    var r := LegacyTransformSpec(render, hash, memo, text, safeMode);
    if r.converted {
      forall t | t != "" && hash(t) in r.memo
        ensures r.memo[hash(t)] == render(t, safeMode)
      {
        if hash(t) == hash(text) {
          assert t == text;
        }
      }
    }
  }
}
