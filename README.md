# markdown-subtemplate, modelled in Dafny

markdown-subtemplate renders markdown templates to HTML. A template is loaded from a storage backend. Its `[IMPORT name]` lines are replaced by shared fragments, recursively. Its `[VARIABLE NAME="value"]` lines declare variables, and `$NAME$` placeholders are replaced by variable values and request data. The result is converted by markdown2. Two cache tiers, one for markdown and one for HTML, keep the results per page. A content-hash memo keeps the conversions.

This project models that pipeline in two revisions and proves properties about it:

- **Current pipeline**:
  - `infrastructure/page.py`: `get_page`, `get_markdown`, `load_markdown_contents`, `process_imports`, `process_variables`, `get_inline_variables`.
  - `caching/memory_cache.py`: the two-tier `MemoryCache`.
  - `infrastructure/markdown_transformer.py`: conversion memoised in the HTML tier under the md5 of the text.
- **Legacy pipeline**:
  - `_impl/page.py`: caches keyed by path and request data, imports that raise when missing, per-line substitution, `get_folder`, `clear_cache`.
  - `_impl/markdown_transformer.py`: its own memo dictionary with `clear_cache`.
- **Logging gate**: `SubtemplateLogger.should_log` and the `LogLevel` constants.

The external pieces are abstract:

- The storage backend is a `Store`: maps from template path and from shared import name to one of three answers. An answer is text, `None` (`Absent`) or a not-found raise (`Raises`). A path that is not listed raises, as the file backend does for a missing file.
- markdown2 is a function `render(text, safeMode)`. It sits inside a `Converter` object that counts its calls.
- md5 is a function parameter `hash`. Where a property needs it to behave as md5 is taken to, that is a stated requirement:
  - `Injective`: no collisions.
  - `NoPageKeys` (module `PageCoherence`): no hash value is an `html: <path>` key. `HexDigests` (32 lower-case hex digits, as md5 gives) implies it.
- The legacy `str(data)` is a function parameter `show`.
- Clock readings are a `now` parameter.
- Python's `str` operations are written out in module `PyStr`: `strip` with Python's whitespace set, `split`, `join`, `replace`, `startswith`, `in`, and ASCII `upper`/`lower`.
- Python dictionaries are insertion-ordered sequences of pairs (`Dicts`).
- Exceptions are `Err` values of a `Result`.

Each stateful operation is a method on a class or on a cache object. Its `ensures` ties the result and the new state to a specification function. The properties are proved about those functions.

Coherence theorems show that the caches are invisible while the store does not change: a cached answer equals a fresh computation.

- Current pipeline: `PageCoherence.PageTransparent` for one call, and `PageCoherence.FreshCacheServesFreshRenders` for every call of any run that starts from a fresh cache.
- Legacy pipeline: `LegacyCache.LegacyPageTransparent`.

They need a collision-free hash. The current pipeline also needs `NoPageKeys`, because the converter's memo shares the HTML tier with the `html: <path>` page entries. A hash meeting both exists (`PageCoherence.HypothesesSatisfiable`). md5 meets `NoPageKeys` but, as any function from all strings to 32-character digests, has collisions: injectivity is an idealisation. The legacy theorem also needs keys that tell calls apart (`KeysDistinguish`): `LegacyCache.KeyIsAmbiguous` shows that the legacy key format does not guarantee this on its own.

## Behaviour worth knowing


- **Rescanning.** `process_variables` folds the keys in order. Each key scans the output of the keys before it, so a value inserted for one key can be replaced by a later key (`PageVariables.InsertedValueIsRescanned`).
- **Quotes.** A declaration's value needs a quote character at each end, but not the same one: `"x'` is accepted.
- **When declarations are removed.** `get_inline_variables` removes the declaration lines only when the variable dictionary is non-empty at the end. Markdown with only malformed declarations comes back unchanged.
- **Missing imports, current pipeline.** When the store answers `None`, a three-line error marker is spliced in. When it raises, the error propagates. The file backend raises for a missing file.
- **Missing imports, legacy pipeline.** A missing import always raises.
- **Import cycles.** There is no cycle guard. Expansion carries fuel (`ImportFuel`, standing for the interpreter's recursion limit) and ends with `RecursionLimit` when a directive remains and the fuel is spent.
- **Empty keys.** The placeholders are built only for non-empty keys, but the loop looks up every key. An empty key, for example from an inline `[VARIABLE ="x"]`, raises KeyError when its turn comes. The model returns `Err(KeyError(""))` rather than forbidding such input.
- **Blank paths.** The current `get_page` raises ArgumentExpected for a blank path. The legacy `get_page` raises TemplateNotFound instead, from `get_page_markdown`.
- **Safe mode.** The memo key does not include the safe-mode flag, so a hit returns HTML converted with whichever flag came first (`Transformer.SafeModeNotInKey`).

## Model

| member | source | states |
|---|---|---|
| Dicts.Keys | markdown_subtemplate/infrastructure/page.py:168 | `list(data.keys())` has one key per entry, in the dictionary's order |
| Dicts.Get | markdown_subtemplate/infrastructure/page.py:223 | a lookup finds nothing exactly when the key is not among the keys |
| Dicts.Put | markdown_subtemplate/infrastructure/page.py:223 | after `d[k] = v`, `k` maps to `v` and every other key maps to what it did before |
| Dicts.PutKeys | markdown_subtemplate/infrastructure/page.py:223 | assignment keeps an existing key in its position and appends a new key last |
| Dicts.PutUnique | markdown_subtemplate/infrastructure/page.py:223 | assignment keeps the keys unique |
| ContentStore.AsResult | markdown_subtemplate/infrastructure/page.py:121-122 | the store's answer seen from Python: raising exactly for a not-found answer, `None` exactly for a missing one, the text otherwise |
| Caching.Find | markdown_subtemplate/caching/memory_cache.py:11-12 | `dict.get` finds an entry exactly when the key is present, and finds that key's entry |
| Caching.AddCount | markdown_subtemplate/caching/memory_cache.py:33-34 | adding a new key grows a tier by one; re-adding an existing key leaves the size unchanged |
| Caching.MemoryCache.constructor | markdown_subtemplate/caching/memory_cache.py:7-9 | a fresh cache has both tiers empty |
| Caching.MemoryCache.GetHtml | markdown_subtemplate/caching/memory_cache.py:11-12 | returns the HTML tier's entry for the key, or `None` when the key is absent |
| Caching.MemoryCache.AddHtml | markdown_subtemplate/caching/memory_cache.py:14-18 | stores and returns the entry (key, name, now, contents), replacing any entry under the key; other keys and the markdown tier are unchanged |
| Caching.MemoryCache.GetMarkdown | markdown_subtemplate/caching/memory_cache.py:20-21 | returns the markdown tier's entry for the key, or `None` when the key is absent |
| Caching.MemoryCache.AddMarkdown | markdown_subtemplate/caching/memory_cache.py:23-27 | stores and returns the entry in the markdown tier only; the HTML tier is unchanged |
| Caching.MemoryCache.Clear | markdown_subtemplate/caching/memory_cache.py:29-31 | both tiers are empty afterwards, so the count is 0 |
| Caching.MemoryCache.Count | markdown_subtemplate/caching/memory_cache.py:33-34 | the count is the size of the markdown tier plus the size of the HTML tier |
| Caching.AddThenGet | markdown_subtemplate/caching/memory_cache.py:11-18 | after `add_html(k, n, c)`, `get_html(k)` finds key `k`, name `n` and contents `c`; the markdown tier is untouched; the count grows by one exactly for a new key |
| Expansion.FirstDirective | markdown_subtemplate/infrastructure/page.py:137-139 | the scan finds the first directive line: every line before it is no directive, and it finds nothing only when no line is a directive |
| Expansion.FirstDirectiveAfter | markdown_subtemplate/infrastructure/page.py:137-139 | a directive preceded only by non-directives is the one the scan finds |
| Expansion.SpliceParts | markdown_subtemplate/infrastructure/page.py:155 | `line_data[:idx] + fragment + line_data[idx + 1:]` keeps the lines before and after the directive in place and puts the fragment between them |
| Expansion.SplicePrefix | markdown_subtemplate/infrastructure/page.py:155 | splicing at a line keeps every prefix that ends at or before that line |
| Expansion.SpliceOnce | markdown_subtemplate/infrastructure/page.py:137-157 | a directive preceded and followed by non-directives, whose fragment holds no directive, is replaced by its fragment in one splice, and the expansion ends there |
| Expansion.Expand | markdown_subtemplate/infrastructure/page.py:133-159 | a successful expansion leaves no directive; a list without directives comes back unchanged |
| Expansion.FuelMonotone | markdown_subtemplate/infrastructure/page.py:157 | the fuel only bounds the recursion: any result other than running out is the same with more fuel |
| Expansion.PrefixPreserved | markdown_subtemplate/infrastructure/page.py:155-157 | lines ahead of every directive open the expanded list unchanged |
| Expansion.FragmentErrorPropagates | markdown_subtemplate/infrastructure/page.py:149 | an error fetching the first directive's fragment ends the expansion with that error |
| Expansion.SelfReferenceExhaustsFuel | markdown_subtemplate/infrastructure/page.py:157 | a directive whose fragment is itself recurses until any fuel runs out |
| PageImports.GetSharedMarkdown | markdown_subtemplate/infrastructure/page.py:125-130 | a blank import name raises ArgumentExpected('import_name') before the store is asked; otherwise the store's answer |
| PageImports.ImportFragment | markdown_subtemplate/infrastructure/page.py:149-153 | the fragment is the shared text split on newlines; a `None` answer gives the three-line error marker; a raise propagates |
| PageImports.ProcessImports | markdown_subtemplate/infrastructure/page.py:133-159 | when it succeeds no output line is a directive; a list without directives comes back unchanged |
| PageImports.ImportStep | markdown_subtemplate/infrastructure/page.py:137-157 | each step replaces exactly the first directive by its fragment and restarts on the spliced list; a fragment error ends the expansion |
| PageImports.SelfImportNeverEnds | markdown_subtemplate/infrastructure/page.py:157 | a shared fragment that imports itself never finishes expanding |
| PageImports.BareMarkerIsNoImport | markdown_subtemplate/infrastructure/page.py:138 | `[IMPORT ` alone on a line is no directive, because stripping removes its trailing space |
| PageImports.ImportNameOfDirective | markdown_subtemplate/infrastructure/page.py:141-145 | an indented or unindented `[IMPORT name]` is a directive whose import name is `name` |
| PageImports.MarkerHasNoImports | markdown_subtemplate/infrastructure/page.py:153 | the error marker holds no directive, so it is never expanded again |
| PageImports.MissingImportLeavesMarker | markdown_subtemplate/infrastructure/page.py:149-155 | an import the store answers with `None` is replaced by the error marker; the other lines stay in order |
| PageImports.ImportSplicesFragment | markdown_subtemplate/infrastructure/page.py:149-157 | an import whose fragment has no directives is replaced by the fragment's lines; the other lines stay in order |
| PageVariables.Placeholder | markdown_subtemplate/infrastructure/page.py:169-173 | a placeholder is `$`, the key stripped and upper-cased, `$`: never empty, with a dollar sign at each end |
| PageVariables.SubstituteSpec | markdown_subtemplate/infrastructure/page.py:162-183 | empty text is returned as it is; otherwise an empty key raises KeyError(''), and without one the result is the in-order fold of replace-all over the keys |
| PageVariables.ProcessVariables | markdown_subtemplate/infrastructure/page.py:162-183 | the loop over the keys computes exactly that specification |
| PageVariables.PlaceholderIgnoresCase | markdown_subtemplate/infrastructure/page.py:170 | a key, its lower-case form and its upper-case form share one placeholder |
| PageVariables.NoPlaceholderUnchanged | markdown_subtemplate/infrastructure/page.py:176-178 | text holding none of the keys' placeholders comes back unchanged, and without an empty key `process_variables` returns it as it is |
| PageVariables.NoDollarUnchanged | markdown_subtemplate/infrastructure/page.py:175-181 | text without a dollar sign holds no placeholder and is never changed |
| PageVariables.GuardIsRedundant | markdown_subtemplate/infrastructure/page.py:177-181 | skipping keys whose placeholder is absent gives the same text as replacing unconditionally |
| PageVariables.InsertedValueIsRescanned | markdown_subtemplate/infrastructure/page.py:175-181 | a value inserted for one key is replaced by a later key: `$A$` with `a` mapped to `$B$` and then `b` to `v` becomes `v` |
| PageVariables.LowerCaseTextUntouched | markdown_subtemplate/infrastructure/page.py:169-181 | text without upper-case letters is untouched by keys with letters: `$title$` is not `$TITLE$` |
| InlineVariables.SliceFrom | markdown_subtemplate/infrastructure/page.py:202 | `s[n:]` is the suffix from `n`, or empty past the end |
| InlineVariables.GetInlineVariables | markdown_subtemplate/infrastructure/page.py:186-228 | the line-by-line loop computes the extraction specification, both the markdown and the filled dictionary |
| InlineVariables.KeptAreNonDeclarations | markdown_subtemplate/infrastructure/page.py:195-199 | the kept lines are exactly the non-declaration lines, in order, whether or not the declarations parse |
| InlineVariables.NonDeclarationsHaveNone | markdown_subtemplate/infrastructure/page.py:197-199 | no kept line is a declaration, and every kept line comes from the input |
| InlineVariables.NoDeclarationsKeepAll | markdown_subtemplate/infrastructure/page.py:195-199 | lines without declarations are all kept and declare nothing |
| InlineVariables.NoDeclarationsNoChange | markdown_subtemplate/infrastructure/page.py:189-190 | markdown without declaration lines comes back unchanged, with the dictionary it was given |
| InlineVariables.ResultHasNoDeclarations | markdown_subtemplate/infrastructure/page.py:225-226 | when the markdown changes, no line of the result is a declaration |
| InlineVariables.ExtractIdempotent | markdown_subtemplate/infrastructure/page.py:186-228 | a second extraction over the result finds nothing to do |
| InlineVariables.MalformedOnlyDeclaresNothing | markdown_subtemplate/infrastructure/page.py:203-219 | declarations without exactly one `=` or without quotes add no variable |
| InlineVariables.DeclarationRoundTrip | markdown_subtemplate/infrastructure/page.py:199-221 | a written `[VARIABLE name="value"]` line is a declaration and reads back as the name stripped and upper-cased and the value stripped, for every name and value without `=`, a name not starting with `]` and a value with no quote at either end |
| InlineVariables.DeclarationReadsBackVerbatim | markdown_subtemplate/infrastructure/page.py:199-221 | an unpadded upper-case name and an unpadded, unquoted value read back exactly as written |
| InlineVariables.DeclarationThenBody | markdown_subtemplate/infrastructure/page.py:186-228 | a declaration line followed by a body with no declaration lines extracts to exactly that body and the one declared variable |
| InlineVariables.ScanPastNonDeclarations | markdown_subtemplate/infrastructure/page.py:195-199 | lines that are not declarations are appended to the kept lines and leave the variables unchanged |
| InlineVariables.MalformedOnlyKeepsMarkdown | markdown_subtemplate/infrastructure/page.py:225-228 | with only malformed declarations the markdown comes back unchanged, malformed lines included |
| InlineVariables.LastDeclarationWins | markdown_subtemplate/infrastructure/page.py:223 | the last well-formed declaration of a name gives its value |
| InlineVariables.DeclaredNamesUpperCase | markdown_subtemplate/infrastructure/page.py:209 | declared names hold no lower-case letter |
| Logging.SubtemplateLogger.constructor | markdown_subtemplate/logging/subtemplate_logger.py:6-7 | the logger keeps the level it is given |
| Logging.SubtemplateLogger.ShouldLog | markdown_subtemplate/logging/subtemplate_logger.py:25-26 | a message is logged exactly when the logger's level is at most the message's level and the text holds a non-whitespace character |
| Logging.BlankNeverLogged | markdown_subtemplate/logging/subtemplate_logger.py:26 | empty or whitespace-only text is never logged |
| Logging.LevelMonotone | markdown_subtemplate/logging/subtemplate_logger.py:26 | a message logged at one level is logged at every higher level |
| Logging.InfoLevelGate | tests/logging_tests.py:21-30 | at level info, info and error messages are logged; verbose and trace messages are not |
| Logging.OffSuppressesAll | markdown_subtemplate/logging/log_level.py:2-6 | level off (100) suppresses verbose, trace, info and error |
| Logging.LevelDecides | tests/logging_tests.py:10-18 | the level alone decides: lowering it lets more through, and two loggers at one level agree |
| Transformer.Converter.constructor | markdown_subtemplate/infrastructure/markdown_transformer.py:26 | a new converter has made no conversion |
| Transformer.Converter.Convert | markdown_subtemplate/infrastructure/markdown_transformer.py:26 | a conversion returns markdown2's output and counts one call |
| Transformer.TransformSpec | markdown_subtemplate/infrastructure/markdown_transformer.py:15-29 | empty text is returned untouched; otherwise the tier ends up mapping the hash to the returned HTML; the converter runs exactly on a miss; a miss stores under the hash with name `markdown_transformer:<hash>`; a hit changes nothing |
| Transformer.Transform | markdown_subtemplate/infrastructure/markdown_transformer.py:15-29 | the lookup-and-store code computes that specification, counts one conversion exactly on a miss and never writes the markdown tier |
| Transformer.RepeatCallHits | markdown_subtemplate/infrastructure/markdown_transformer.py:21-24 | a repeat call with the same text returns the same HTML without converting and leaves the tier as it is |
| Transformer.SafeModeNotInKey | markdown_subtemplate/infrastructure/markdown_transformer.py:19-24 | on a hit both safe-mode flags return the stored HTML |
| Transformer.TransformTransparent | markdown_subtemplate/infrastructure/markdown_transformer.py:19-29 | with a collision-free hash and one flag, the result is the conversion of the text and the tier stays coherent |
| Transformer.CollisionServesOtherText | markdown_subtemplate/infrastructure/markdown_transformer.py:19-24 | two texts with one hash share one entry, so the second gets the first's HTML |
| Page.GetPageMarkdown | markdown_subtemplate/infrastructure/page.py:117-122 | a blank path raises TemplateNotFound before the store is asked; otherwise the store's answer |
| Page.LoadMarkdownContents | markdown_subtemplate/infrastructure/page.py:98-114 | an empty path and a page answered with `None` load as empty text; a blank path or a not-found page raises; a loaded text is stripped |
| Page.PlainPageLoadsStripped | markdown_subtemplate/infrastructure/page.py:109-112 | a page without imports loads as its own text, stripped |
| Page.ApplyDataIsSubstitution | markdown_subtemplate/infrastructure/page.py:31-32 | substituting only when there is request data gives what substituting always gives |
| Page.GetMarkdownSpec | markdown_subtemplate/infrastructure/page.py:67-95 | a hit answers the stored text with the request data applied and changes nothing; a miss stores the loaded text under `markdown: <path>` before the data is applied; a failed load stores nothing |
| Page.GetMarkdown | markdown_subtemplate/infrastructure/page.py:67-95 | the code on the cache object computes that specification and leaves the HTML tier alone |
| Page.GetPageSpec | markdown_subtemplate/infrastructure/page.py:15-58 | a blank path raises ArgumentExpected('template_path') and touches nothing; a hit on `html: <normalised path>` answers the stored HTML with the data applied, without conversion; a miss builds the page, and on success answers the entry it stored under `html: <normalised path>` with the request data substituted, or else the build's error; both tiers only grow |
| Page.GetPage | markdown_subtemplate/infrastructure/page.py:15-58 | the orchestration on the cache object and the converter computes that specification, including how often the converter runs |
| Page.NormalisedNotBlank | markdown_subtemplate/infrastructure/page.py:19 | normalising keeps a non-blank path non-blank and is idempotent |
| Page.NormalisedPathSameOutcome | markdown_subtemplate/infrastructure/page.py:19-24 | a path and its `strip().lower()` form render alike and leave the same tiers |
| Page.RequestDataNotCached | markdown_subtemplate/infrastructure/page.py:46-51 | the tiers after a call and whether it converts do not depend on the request data |
| Page.PageRepeatHits | markdown_subtemplate/infrastructure/page.py:24-35 | after a successful render, a repeat request changes no tier, does not convert, and with the same data gives the same result |
| Page.BuildPage | markdown_subtemplate/infrastructure/page.py:37-48 | the miss path loads the markdown through its tier with no data; a failed load converts nothing and leaves the HTML tier alone; otherwise the HTML is the memoised conversion of the markdown without its declarations, with the inline variables applied, and on success it is stored under `html: <path>`; when the page had no HTML entry, no entry already in either tier is dropped or replaced |
| PageCoherence.MarkdownKeyInjective | markdown_subtemplate/infrastructure/page.py:74 | distinct paths have distinct markdown keys |
| PageCoherence.HtmlKeyInjective | markdown_subtemplate/infrastructure/page.py:24 | distinct paths have distinct HTML keys |
| PageCoherence.HashIsNoPageKey | markdown_subtemplate/infrastructure/markdown_transformer.py:32-37 | a hex digest never equals an `html: <path>` key, so the memo and the page entries never overwrite each other |
| PageCoherence.HexDigestsAreNoPageKeys | markdown_subtemplate/infrastructure/markdown_transformer.py:32-37 | a hash giving hex digests only never gives an `html: <path>` key |
| PageCoherence.HypothesesSatisfiable | markdown_subtemplate/infrastructure/markdown_transformer.py:32-37 | some hash is both collision-free and never a page key, so the coherence theorems do not hold vacuously |
| PageCoherence.MarkdownTransparent | markdown_subtemplate/infrastructure/page.py:67-95 | on a coherent markdown tier, `get_markdown` answers as a fresh load with the data applied, and keeps the tier coherent |
| PageCoherence.BuildPageCoherent | markdown_subtemplate/infrastructure/page.py:37-48 | with a collision-free hash that never gives a page key, the miss path on coherent tiers yields the freshly computed HTML and keeps both tiers coherent |
| PageCoherence.PageTransparent | markdown_subtemplate/infrastructure/page.py:15-58 | with a collision-free hash that never gives a page key, `get_page` on coherent tiers answers as a fresh render without cache does, and keeps the tiers coherent |
| PageCoherence.EmptyTiersCoherent | markdown_subtemplate/caching/memory_cache.py:8-9 | empty tiers, as a fresh cache has, are coherent |
| PageCoherence.ServeTransparent | markdown_subtemplate/infrastructure/page.py:15-58 | in a run of `get_page` calls on coherent tiers, each call made on the tiers the one before left, every call answers as a fresh render does |
| PageCoherence.FreshCacheServesFreshRenders | markdown_subtemplate/infrastructure/page.py:15-58 | from a fresh cache, every call of any run of `get_page` calls answers as a fresh render does |
| LegacyTransformer.LegacyTransformSpec | markdown_subtemplate/_impl/markdown_transformer.py:16-29 | empty text is returned untouched; otherwise the memo maps the hash to the returned HTML; the converter runs exactly on a miss; the memo only grows |
| LegacyTransformer.MemoCache.constructor | markdown_subtemplate/_impl/markdown_transformer.py:13 | the module memo starts empty |
| LegacyTransformer.MemoCache.Transform | markdown_subtemplate/_impl/markdown_transformer.py:16-29 | the code on the memo computes that specification and counts one conversion exactly on a miss |
| LegacyTransformer.MemoCache.ClearCache | markdown_subtemplate/_impl/markdown_transformer.py:40-41 | `clear_cache` empties the memo |
| LegacyTransformer.LegacyRepeatCallHits | markdown_subtemplate/_impl/markdown_transformer.py:20-23 | a repeat call with the same text returns the same HTML without converting, whatever its flag |
| LegacyTransformer.ClearedMemoRecomputes | markdown_subtemplate/_impl/markdown_transformer.py:40-41 | after `clear_cache` the next call converts again |
| LegacyTransformer.LegacyTransformTransparent | markdown_subtemplate/_impl/markdown_transformer.py:16-29 | with a collision-free hash and one flag, the result is the conversion and the memo stays coherent |
| LegacyPage.GetFolder | markdown_subtemplate/_impl/page.py:104-114 | an empty list of segments raises ArgumentExpected('path_parts'); any other list gives a folder |
| LegacyPage.NormaliseSegmentFacts | markdown_subtemplate/_impl/page.py:108-111 | a normalised segment has no upper-case letter and no backslash at either end |
| LegacyPage.CleanSegmentKept | markdown_subtemplate/_impl/page.py:108-111 | an already clean segment is kept as it is |
| LegacyPage.LegacyPageMarkdown | markdown_subtemplate/_impl/page.py:88-101 | a blank path raises TemplateNotFound; a file the store does not have raises TemplateNotFound with the file's path; otherwise its text |
| LegacyPage.LegacyProcessImports | markdown_subtemplate/_impl/page.py:131-154 | when it succeeds no line is a directive; a list without directives comes back unchanged |
| LegacyPage.ImportPathNotBlank | markdown_subtemplate/_impl/page.py:145 | `_shared/<name>.md` is never blank, so the blank-path check never fires for an import |
| LegacyPage.MissingImportRaises | markdown_subtemplate/_impl/page.py:145-152 | an import whose file is missing raises TemplateNotFound with that file's path; no marker is spliced |
| LegacyPage.PerLineSpec | markdown_subtemplate/_impl/page.py:157-176 | an empty key raises KeyError('') as soon as a line is visited; otherwise the line count is kept |
| LegacyPage.PassLine | markdown_subtemplate/_impl/page.py:168-174 | the inner loop leaves the line as the last key whose placeholder occurs in the original line makes it; an empty key, which the placeholder table omits, raises KeyError('') |
| LegacyPage.ProcessVariablesPerLine | markdown_subtemplate/_impl/page.py:157-176 | the nested loops compute the per-line specification |
| LegacyPage.UntouchedLineKept | markdown_subtemplate/_impl/page.py:168-170 | a line holding no placeholder is kept |
| LegacyPage.LostUpdate | markdown_subtemplate/_impl/page.py:174 | with two matching keys on one line, only the later key's replacement survives |
| LegacyPage.PerLineIsNoFold | markdown_subtemplate/_impl/page.py:166-174 | the per-line pass and the current fold differ: a value inserted for one key is not rescanned per line but is by the fold |
| LegacyPage.LegacyLoad | markdown_subtemplate/_impl/page.py:73-85 | a blank path raises TemplateNotFound; a loaded text is stripped |
| LegacyPage.LoadMarkdownContents | markdown_subtemplate/_impl/page.py:73-85 | the load with the nested substitution loops computes `LegacyLoad` |
| LegacyCache.LegacyMarkdownSpec | markdown_subtemplate/_impl/page.py:49-70 | a hit on `name: <path>, data: <data>` answers the stored text verbatim and changes nothing; a miss answers the fresh load and stores it under that key only when the load succeeds; other entries are kept |
| LegacyCache.LegacyPageSpec | markdown_subtemplate/_impl/page.py:18-42 | a hit answers the stored HTML verbatim and converts nothing; a success stores the HTML under the key; a failure leaves the HTML dictionary and the memo alone; entries are never dropped and the memo only grows |
| LegacyCache.PageCache.constructor | markdown_subtemplate/_impl/page.py:11-12 | both module dictionaries start empty |
| LegacyCache.PageCache.GetMarkdown | markdown_subtemplate/_impl/page.py:49-70 | the code on the dictionaries computes the markdown specification and leaves the HTML dictionary alone |
| LegacyCache.PageCache.GetPage | markdown_subtemplate/_impl/page.py:18-42 | the code on the dictionaries, the memo and the converter computes the page specification, including how often the converter runs |
| LegacyCache.PageCache.ClearCache | markdown_subtemplate/_impl/page.py:179-183 | both path dictionaries are emptied; the memo is emptied only when `reclaim_all_memory` is set |
| LegacyCache.LegacyMarkdownRepeatHits | markdown_subtemplate/_impl/page.py:52-56 | after a successful load, the same call is a hit with the same answer and no change |
| LegacyCache.LegacyPageRepeatHits | markdown_subtemplate/_impl/page.py:21-25 | after a successful render, the same call answers the same HTML, changes nothing and does not convert |
| LegacyCache.DataIsInKey | markdown_subtemplate/_impl/page.py:21 | the same path with data shown differently has a different key |
| LegacyCache.KeyIsAmbiguous | markdown_subtemplate/_impl/page.py:21 | a path holding `, data: ` shares its key with another path and other data |
| LegacyCache.LegacyMarkdownTransparent | markdown_subtemplate/_impl/page.py:49-70 | on a coherent dictionary, `get_markdown` answers as a fresh load and keeps the dictionary coherent |
| LegacyCache.LegacyPageTransparent | markdown_subtemplate/_impl/page.py:18-42 | on coherent dictionaries, `get_page` answers as a fresh load and conversion do, and keeps all three dictionaries coherent |
| LegacyCache.LegacyBlankPathNotFound | markdown_subtemplate/_impl/page.py:89-90 | on coherent dictionaries, a blank path always raises TemplateNotFound |
| LegacyCache.ClearedStateCoherent | markdown_subtemplate/_impl/page.py:179-183 | what `clear_cache` leaves is coherent, with or without reclaiming the memo |
| LegacyCache.ClearedPageReloads | markdown_subtemplate/_impl/page.py:179-183 | after `clear_cache` the next `get_page` succeeds exactly when a fresh load does, and stores the freshly loaded markdown |

## Left out

- File-system I/O. The storage backend is a map of answers. `os.path` is modelled for POSIX relative paths only: no Windows separator, no `abspath` of the template folder (it stands as the empty path), no directory mistaken for a file. The store is taken to be initialised: the template folder is set.
- The legacy `get_page_markdown` reads a file or raises. A `None` answer of the store counts as a missing file there.
- The legacy `get_shared_markdown` is not called by the legacy `process_imports`, so it is not modelled.
- markdown2 and md5 are abstract functions. No property of the HTML itself is modelled.
- Case mapping is ASCII only. Python's `upper`/`lower` also map non-ASCII letters; text with non-ASCII letters is not modelled faithfully.
- Timestamps: every clock reading of one call is the single `now` parameter. Timing measurements and log messages have no functional effect and are left out.
- Logging side effects: messages and the logger sinks. Only `should_log` is modelled.
- Python's recursion limit is fuel (`ImportFuel`). The exact depth at which the interpreter gives up is not modelled.
- `Expansion.Expand`: a run that reaches `RecursionLimit` with `ImportFuel` may, in Python, succeed or overflow at a different depth.
- Values in the data dictionaries are held as their `str()` form. Non-string keys (skipped when placeholders are built and then raising KeyError) are not modelled. `None` for `data` is only modelled where `get_markdown` turns it into `{}`: the model passes an empty dictionary.
- The current `get_inline_variables` fills the caller's dictionary in place. The model hands the filled dictionary back instead; the only caller passes a fresh one.
- Entry truthiness: a cache entry found is always truthy in the source, and the model treats any entry found as a hit.
- The two `MemoryCache` dictionaries are class attributes shared by every instance. The model has one cache object passed to every operation, which is how the package uses it.
- The cache singleton of `caching/__init__.py` is not modelled.
- `LegacyPage.PerLineSpec` states only the error case and the line count in its ensures; the per-line result is `LastMatch`, stated by `LegacyPage.PassLine`, `LegacyPage.UntouchedLineKept` and `LegacyPage.LostUpdate`.
- `LegacyPage.GetFolder` states when it raises but not the folder string; the folder's segments are described by `LegacyPage.NormaliseSegmentFacts` and `LegacyPage.CleanSegmentKept`.
