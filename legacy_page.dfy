/**
 * Template loading of the legacy pipeline (_impl/page.py): path
 * resolution under the template folder, import expansion that raises on a
 * missing import, and the per-line variable substitution.
 *
 * Paths are POSIX paths relative to the template folder, which stands as
 * the empty path; the store answers for the resolved file path. A file
 * either exists and is read, or is missing and raises TemplateNotFound, so
 * a `None` answer counts as missing here.
 */
module LegacyPage {
  import opened Outcomes
  import opened PyStr
  import opened Dicts
  import opened ContentStore
  import opened PageImports
  import opened PageVariables
  import Expansion

  /** `os.path.join(a, b)`: an absolute `b` replaces `a`; otherwise one
      separator goes between them unless `a` is empty or ends with one. */
  function PathJoin(a: string, b: string): string {
    if StartsWith(b, "/") then b
    else if a == "" || EndsWith(a, "/") then a + b
    else a + "/" + b
  }

  /** `os.path.join(base, *parts)` */
  function PathJoinAll(base: string, parts: seq<string>): string
    decreases |parts|
  {
    if parts == [] then base else PathJoinAll(PathJoin(base, parts[0]), parts[1..])
  }

  /** `os.path.basename`: what follows the last separator. */
  function Basename(path: string): string {
    var parts := Split(path, '/');
    parts[|parts| - 1]
  }

  /** `os.path.dirname`: what precedes the last separator, with trailing
      separators removed unless it is all separators. */
  function Dirname(path: string): string {
    var parts := Split(path, '/');
    if |parts| == 1 then ""
    else
      var head := Join(parts[..|parts| - 1], '/') + "/";
      if forall i :: 0 <= i < |head| ==> head[i] == '/' then head else TrimEnd(head, Chars({'/'}))
  }

  /** One folder segment: whitespace, then `/`, then `\` stripped from
      the ends, then lower-cased. */
  function NormaliseSegment(segment: string): string {
    Lower(StripChars(StripChars(Strip(segment), Chars({'/'})), Chars({'\\'})))
  }

  /** `get_folder`: the normalised segments joined under the template
      folder; an empty list raises ArgumentExpected. */
  function GetFolder(parts: seq<string>): (r: Result<string>)
    ensures r.Err? <==> parts == []
    ensures r.Err? ==> r.error == ArgumentExpected("path_parts")
  {
    if parts == [] then Err(ArgumentExpected("path_parts"))
    else Ok(PathJoinAll("", seq(|parts|, i requires 0 <= i < |parts| => NormaliseSegment(parts[i]))))
  }

  /** A normalised segment holds no upper-case ASCII letter and neither
      starts nor ends with a backslash. */
  lemma NormaliseSegmentFacts(segment: string)
    ensures var r := NormaliseSegment(segment);
      && (forall i :: 0 <= i < |r| ==> !('A' <= r[i] <= 'Z'))
      && (r != "" ==> r[0] != '\\' && r[|r| - 1] != '\\')
  {
    var s := StripChars(StripChars(Strip(segment), Chars({'/'})), Chars({'\\'}));
    StripCharsFacts(StripChars(Strip(segment), Chars({'/'})), Chars({'\\'}));
    assert forall i :: 0 <= i < |s| ==> NormaliseSegment(segment)[i] == LowerChar(s[i]);
  }

  /** Lower-casing text without upper-case letters changes nothing. */
  lemma LowerKeeps(s: string)
    requires forall i :: 0 <= i < |s| ==> !('A' <= s[i] <= 'Z')
    ensures Lower(s) == s
  {
    assert forall i :: 0 <= i < |s| ==> Lower(s)[i] == s[i];
  }

  /** A segment that is already clean -- lower case, with no whitespace,
      `/` or `\` at its ends -- is kept as it is. */
  lemma CleanSegmentKept(segment: string)
    requires segment != ""
    requires forall i :: 0 <= i < |segment| ==> !('A' <= segment[i] <= 'Z')
    requires var c := segment[0]; !IsSpace(c) && c != '/' && c != '\\'
    requires var c := segment[|segment| - 1]; !IsSpace(c) && c != '/' && c != '\\'
    ensures NormaliseSegment(segment) == segment
  {
    StripCharsAt(segment, Whitespace, 0, |segment|);
    StripCharsAt(segment, Chars({'/'}), 0, |segment|);
    StripCharsAt(segment, Chars({'\\'}), 0, |segment|);
    LowerKeeps(segment);
  }

  /** The file `get_page_markdown` opens for a template path. */
  function TemplateFile(path: string): string {
    PathJoin(GetFolder(Split(Dirname(path), '/')).value, Basename(path))
  }

  /** `get_page_markdown`: a blank path raises TemplateNotFound; so does a
      file that does not exist. */
  function LegacyPageMarkdown(store: Store, path: string): (r: Result<string>)
    ensures IsBlank(path) ==> r == Err(TemplateNotFound(""))
    ensures !IsBlank(path) ==>
      var file := TemplateFile(path);
      match Answer(store.pages, file)
      case Text(t) => r == Ok(t)
      case _ => r == Err(TemplateNotFound(file))
  {
    if IsBlank(path) then Err(TemplateNotFound(""))
    else
      var file := TemplateFile(path);
      match Answer(store.pages, file)
      case Text(t) => Ok(t)
      case _ => Err(TemplateNotFound(file))
  }

  /** `os.path.join('_shared', name + '.md')` */
  function ImportPath(name: string): string {
    PathJoin("_shared", name + ".md")
  }

  /** The fragment for one directive line: the shared file's lines. A
      missing file raises. */
  function LegacyLineFragment(store: Store, line: string): Result<seq<string>> {
    var markdown :- LegacyPageMarkdown(store, ImportPath(ImportName(line)));
    Ok(Split(markdown, '\n'))
  }

  /** `process_imports` of the legacy pipeline, with fuel. When it succeeds
      no directive is left; a list without directives comes back
      unchanged. */
  function LegacyProcessImports(store: Store, lines: seq<string>, fuel: nat): (r: Result<seq<string>>)
    ensures r.Ok? ==> NoImports(r.value)
    ensures NoImports(lines) ==> r == Ok(lines)
  {
    Expansion.Expand(IsImportLine, LegacyLineFragment, store, lines, fuel)
  }

  /** An import path is never blank: it ends in `.md`. */
  lemma ImportPathNotBlank(name: string)
    ensures !IsBlank(ImportPath(name))
  {
    var p := ImportPath(name);
    assert p[|p| - 1] == 'd';
    BlankIffAllSpace(p);
  }

  /** A directive whose shared file does not exist makes the expansion
      raise TemplateNotFound: no marker is spliced in. */
  lemma MissingImportRaises(store: Store, before: seq<string>, line: string, after: seq<string>, fuel: nat)
    requires NoImports(before) && IsImportLine(line) && fuel >= 1
    requires !Answer(store.pages, TemplateFile(ImportPath(ImportName(line)))).Text?
    ensures LegacyProcessImports(store, before + [line] + after, fuel)
         == Err(TemplateNotFound(TemplateFile(ImportPath(ImportName(line)))))
  {
    ImportPathNotBlank(ImportName(line));
    Expansion.FirstDirectiveAfter(IsImportLine, before, line, after);
    assert (before + [line] + after)[|before|] == line;
  }

  /** The slot of `line` after the keys of `data` have had their turns,
      starting from `slot`: each key whose placeholder occurs in the
      ORIGINAL line overwrites the slot with that line's replacement. */
  function PassFrom(line: string, slot: string, data: Dict): string
    decreases |data|
  {
    if data == [] then slot
    else
      var p := Placeholder(data[0].0);
      PassFrom(line, if Contains(line, p) then ReplaceAll(line, p, data[0].1) else slot, data[1..])
  }

  /** The line after its per-line pass: the last key, in dictionary order,
      whose placeholder occurs in the original line decides it, and every
      earlier key's replacement is lost. */
  function LastMatch(line: string, data: Dict): string {
    PassFrom(line, line, data)
  }

  /** The legacy `process_variables` on a list of lines: an empty key has no
      placeholder and raises KeyError as soon as a line is visited. */
  function PerLineSpec(lines: seq<string>, data: Dict): (r: Result<seq<string>>)
    ensures r.Err? <==> lines != [] && "" in Keys(data)
    ensures r.Ok? ==> |r.value| == |lines|
  {
    if lines == [] then Ok(lines)
    else if "" in Keys(data) then Err(KeyError(""))
    else Ok(seq(|lines|, i requires 0 <= i < |lines| => LastMatch(lines[i], data)))
  }

  /** The inner loop of `process_variables` for one line: each key whose
      placeholder occurs in the original line overwrites the line's slot
      with that line's replacement; an empty key raises KeyError. */
  method PassLine(line: string, data: Dict, placeholders: map<string, string>) returns (r: Result<string>)
    requires forall k :: k in placeholders <==> k in Keys(data) && k != ""
    requires forall k :: k in placeholders ==> placeholders[k] == Placeholder(k)
    ensures r.Err? <==> "" in Keys(data)
    ensures r.Err? ==> r.error == KeyError("")
    ensures r.Ok? ==> r.value == LastMatch(line, data)
  {
    var keys := Keys(data);
    var slot := line;
    var k := 0;
    while k < |keys|
      invariant 0 <= k <= |keys|
      invariant forall j :: 0 <= j < k ==> keys[j] != ""
      invariant PassFrom(line, slot, data[k..]) == LastMatch(line, data)
    {
      var key := keys[k];
      if key !in placeholders {
        assert key == "";
        return Err(KeyError(key));
      }
      var placeholder := placeholders[key];
      if Contains(line, placeholder) {
        slot := ReplaceAll(line, placeholder, data[k].1);
      }
      k := k + 1;
    }
    return Ok(slot);
  }

  /** `process_variables`, with the nested loops of the source: the outer
      loop visits the lines, the inner one the keys. */
  method ProcessVariablesPerLine(lines: seq<string>, data: Dict) returns (r: Result<seq<string>>)
    ensures r == PerLineSpec(lines, data)
  {
    var lineData := lines;
    var placeholders := map k | k in Keys(data) && k != "" :: Placeholder(k);
    var idx := 0;
    while idx < |lineData|
      invariant |lineData| == |lines| && 0 <= idx <= |lines|
      invariant idx > 0 ==> "" !in Keys(data)
      invariant forall j :: 0 <= j < idx ==> lineData[j] == LastMatch(lines[j], data)
      invariant forall j :: idx <= j < |lines| ==> lineData[j] == lines[j]
    {
      var slot :- PassLine(lineData[idx], data, placeholders);
      lineData := lineData[idx := slot];
      idx := idx + 1;
    }
    assert lineData == seq(|lines|, i requires 0 <= i < |lines| => LastMatch(lines[i], data));
    return Ok(lineData);
  }

  /** Keys whose placeholders do not occur in the line leave its slot
      alone; in particular a line holding no placeholder is kept. */
  lemma {:induction false} UntouchedLineKept(line: string, slot: string, data: Dict)
    requires forall j :: 0 <= j < |data| ==> !Contains(line, Placeholder(data[j].0))
    ensures PassFrom(line, slot, data) == slot
    decreases |data|
  {
    if data != [] {
      var rest := data[1..];
      assert forall j :: 0 <= j < |rest| ==> rest[j] == data[j + 1];
      UntouchedLineKept(line, slot, rest);
    }
  }

  /** The lost update: with two keys whose placeholders both occur in a
      line, only the later key's replacement survives; the earlier key's
      value never reaches the line. */
  lemma LostUpdate(line: string, a: string, va: string, b: string, vb: string)
    requires Contains(line, Placeholder(a)) && Contains(line, Placeholder(b))
    ensures LastMatch(line, [(a, va), (b, vb)]) == ReplaceAll(line, Placeholder(b), vb)
  {
    var data := [(a, va), (b, vb)];
    var first := ReplaceAll(line, Placeholder(a), va);
    assert data[1..] == [(b, vb)] && [(b, vb)][1..] == [];
    assert LastMatch(line, data) == PassFrom(line, first, [(b, vb)]);
    assert PassFrom(line, first, [(b, vb)]) == PassFrom(line, ReplaceAll(line, Placeholder(b), vb), []);
  }

  /** The per-line pass differs from the fold of the current pipeline: on
      a line that is exactly the first key's placeholder, whose value is the
      placeholder of a second key at least as long, the fold goes on to the
      second value while the per-line pass stops at the first. */
  lemma PerLineIsNoFold(a: string, b: string, vb: string)
    requires Placeholder(a) != Placeholder(b) && |Strip(a)| <= |Strip(b)| && '$' !in vb
    ensures LastMatch(Placeholder(a), [(a, Placeholder(b)), (b, vb)]) == Placeholder(b)
    ensures Substituted(Placeholder(a), [(a, Placeholder(b)), (b, vb)]) == vb
    ensures Placeholder(b) != vb
  {
    var pa := Placeholder(a);
    var pb := Placeholder(b);
    var data := [(a, pb), (b, vb)];
    InsertedValueIsRescanned(a, b, vb);
    ContainsAt(pa, pa, 0);
    ReplaceWhole(pa, pb);
    assert pb[0] == '$';
    assert !Contains(pa, pb) by {
      if Contains(pa, pb) {
        ContainsSameLength(pa, pb);
      }
    }
    assert data[1..] == [(b, vb)] && [(b, vb)][1..] == [];
    assert LastMatch(pa, data) == PassFrom(pa, pb, [(b, vb)]);
    assert PassFrom(pa, pb, [(b, vb)]) == PassFrom(pa, pb, []);
  }

  /** A pattern found in a text of its own length is that text. */
  lemma ContainsSameLength(s: string, p: string)
    requires |p| >= |s| && Contains(s, p)
    ensures s == p
  {
    if |s| > 0 && !StartsWith(s, p) {
      ContainsShorter(s[1..], p);
    }
  }

  lemma {:induction false} ContainsShorter(s: string, p: string)
    requires |s| < |p|
    ensures !Contains(s, p)
    decreases |s|
  {
    if |s| > 0 {
      ContainsShorter(s[1..], p);
    }
  }

  /** `load_markdown_contents` of the legacy pipeline: split, expand the
      imports, substitute per line, join and strip. */
  function LegacyLoad(store: Store, path: string, data: Dict): (r: Result<string>)
    ensures IsBlank(path) ==> r == Err(TemplateNotFound(""))
    ensures r.Ok? ==> Strip(r.value) == r.value
  {
    var landing :- LegacyPageMarkdown(store, path);
    var lines :- LegacyProcessImports(store, Split(landing, '\n'), ImportFuel);
    var substituted :- PerLineSpec(lines, data);
    StripIdempotent(Join(substituted, '\n'));
    Ok(Strip(Join(substituted, '\n')))
  }

  /** `load_markdown_contents`, calling the per-line pass. */
  method LoadMarkdownContents(store: Store, path: string, data: Dict) returns (r: Result<string>)
    ensures r == LegacyLoad(store, path, data)
  {
    var landing :- LegacyPageMarkdown(store, path);
    var lines :- LegacyProcessImports(store, Split(landing, '\n'), ImportFuel);
    var substituted :- ProcessVariablesPerLine(lines, data);
    return Ok(Strip(Join(substituted, '\n')));
  }
}
