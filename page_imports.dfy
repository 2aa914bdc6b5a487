/**
 * Import expansion of the current pipeline (infrastructure/page.py): a line
 * whose stripped form starts with `[IMPORT ` names a shared fragment, which
 * the storage backend supplies; a name it does not know yields a visible
 * error marker instead of the fragment.
 */
module PageImports {
  import opened Outcomes
  import opened PyStr
  import opened ContentStore
  import Expansion

  const ImportMarker := "[IMPORT "

  /** The fuel the pipeline gives the expansion, standing for the
      interpreter's recursion limit. */
  const ImportFuel: nat := 1000

  predicate IsImportLine(line: string) {
    StartsWith(Strip(line), ImportMarker)
  }

  predicate NoImports(lines: seq<string>) {
    Expansion.NoDirectives(IsImportLine, lines)
  }

  /** The stripped line with every `[IMPORT ` and every `]` removed,
      stripped again. */
  function ImportName(line: string): string {
    Strip(ReplaceAll(ReplaceAll(Strip(line), ImportMarker, ""), "]", ""))
  }

  /** `get_shared_markdown`: a blank name raises ArgumentExpected before the
      store is asked. */
  function GetSharedMarkdown(store: Store, importName: string): (r: Result<Option<string>>)
    ensures IsBlank(importName) ==> r == Err(ArgumentExpected("import_name"))
    ensures !IsBlank(importName) ==> r == AsResult(Answer(store.shared, importName), importName)
  {
    if IsBlank(importName) then Err(ArgumentExpected("import_name"))
    else SharedText(store, importName)
  }

  /** The marker spliced in for an import the store answers with `None`. */
  function MissingImportLines(name: string): seq<string> {
    ["", "ERROR: IMPORT " + name + " not found", ""]
  }

  /** The lines that replace one directive naming `name`. */
  function ImportFragment(store: Store, name: string): (r: Result<seq<string>>)
    ensures IsBlank(name) ==> r == Err(ArgumentExpected("import_name"))
    ensures !IsBlank(name) ==>
      match Answer(store.shared, name)
      case Text(t) => r == Ok(Split(t, '\n'))
      case Absent => r == Ok(MissingImportLines(name))
      case Raises => r == Err(TemplateNotFound(name))
  {
    var markdown :- GetSharedMarkdown(store, name);
    match markdown
    case Some(text) => Ok(Split(text, '\n'))
    case None => Ok(MissingImportLines(name))
  }

  /** The fragment for one directive line. */
  function LineFragment(store: Store, line: string): Result<seq<string>> {
    ImportFragment(store, ImportName(line))
  }

  /** `process_imports`, with fuel. When it succeeds no directive is left;
      a list without directives comes back unchanged. */
  function ProcessImports(store: Store, lines: seq<string>, fuel: nat): (r: Result<seq<string>>)
    ensures r.Ok? ==> NoImports(r.value)
    ensures NoImports(lines) ==> r == Ok(lines)
  {
    Expansion.Expand(IsImportLine, LineFragment, store, lines, fuel)
  }

  /** One step: exactly the first directive is replaced by its fragment and
      the expansion starts again on the spliced list; an error from the
      fragment ends it. */
  lemma ImportStep(store: Store, lines: seq<string>, fuel: nat, i: nat)
    requires Expansion.FirstDirective(IsImportLine, lines) == Some(i) && fuel > 0
    ensures var f := ImportFragment(store, ImportName(lines[i]));
      && (f.Err? ==> ProcessImports(store, lines, fuel) == Err(f.error))
      && (f.Ok? ==> ProcessImports(store, lines, fuel)
                    == ProcessImports(store, Expansion.Splice(lines, i, f.value), fuel - 1))
  {
  }

  /** A self-importing fragment exhausts any fuel: the source recurses
      without bound here. */
  lemma SelfImportNeverEnds(store: Store, line: string, fuel: nat)
    requires IsImportLine(line) && !IsBlank(ImportName(line)) && '\n' !in line
    requires Answer(store.shared, ImportName(line)) == Text(line)
    ensures ProcessImports(store, [line], fuel) == Err(RecursionLimit)
  {
    SplitNoSeparator(line, '\n');
    Expansion.SelfReferenceExhaustsFuel(IsImportLine, LineFragment, store, line, fuel);
  }

  /** The marker with nothing after it is no directive: stripping removes
      the space the marker ends with. */
  lemma BareMarkerIsNoImport(line: string)
    requires line == ImportMarker
    ensures !IsImportLine(line)
  {
    StripCharsAt(line, Whitespace, 0, 7);
  }

  /** Stripping an indented directive leaves the directive. */
  lemma StripIndent(indent: string, directive: string)
    requires forall i :: 0 <= i < |indent| ==> IsSpace(indent[i])
    requires directive != [] && !IsSpace(directive[0]) && !IsSpace(directive[|directive| - 1])
    ensures Strip(indent + directive) == directive
  {
    var line := indent + directive;
    assert line[|indent|..] == directive;
    StripCharsAt(line, Whitespace, |indent|, |line|);
  }

  /** Removing the marker and the closing bracket from a directive leaves
      the name between them. */
  lemma MarkerAndBracketRemoved(name: string)
    requires '[' !in name && ']' !in name
    ensures ReplaceAll(ReplaceAll(ImportMarker + name + "]", ImportMarker, ""), "]", "") == name
  {
    var rest := name + "]";
    assert ImportMarker + name + "]" == ImportMarker + rest;
    MissingCharNotContained(rest, ImportMarker, '[');
    ReplacePrefix(ImportMarker, rest, "");
    assert "" + rest == rest;
    ReplaceLastChar(name, ']', "");
  }

  /** A directive, indented or not, names what stands between the marker
      and the closing bracket. */
  lemma ImportNameOfDirective(indent: string, name: string)
    requires forall i :: 0 <= i < |indent| ==> IsSpace(indent[i])
    requires name != [] && !IsSpace(name[0]) && !IsSpace(name[|name| - 1])
    requires '[' !in name && ']' !in name
    ensures IsImportLine(indent + ImportMarker + name + "]")
    ensures ImportName(indent + ImportMarker + name + "]") == name
  {
    var directive := ImportMarker + name + "]";
    assert indent + ImportMarker + name + "]" == indent + directive;
    assert directive[0] == '[' && directive[|directive| - 1] == ']';
    StripIndent(indent, directive);
    assert directive[..|ImportMarker|] == ImportMarker;
    MarkerAndBracketRemoved(name);
    StripCharsAt(name, Whitespace, 0, |name|);
  }

  /** The error marker is not a directive itself. */
  lemma MarkerHasNoImports(name: string)
    ensures NoImports(MissingImportLines(name))
  {
    var marker := MissingImportLines(name);
    var err := marker[1];
    assert err[0] == 'E' && err[|err| - 1] == 'd';
    StripCharsAt(err, Whitespace, 0, |err|);
    assert !IsImportLine(err);
    assert !IsImportLine(marker[0]) && !IsImportLine(marker[2]);
  }

  /** A directive whose name the store answers with `None` is replaced by
      the error marker, and the other lines stay as they are. */
  lemma MissingImportLeavesMarker(store: Store, before: seq<string>, line: string, after: seq<string>, fuel: nat)
    requires NoImports(before) && NoImports(after)
    requires IsImportLine(line) && !IsBlank(ImportName(line))
    requires Answer(store.shared, ImportName(line)) == Absent
    requires fuel >= 1
    ensures ProcessImports(store, before + [line] + after, fuel)
         == Ok(before + MissingImportLines(ImportName(line)) + after)
  {
    MarkerHasNoImports(ImportName(line));
    Expansion.SpliceOnce(IsImportLine, LineFragment, store, before, line, after, MissingImportLines(ImportName(line)), fuel);
  }

  /** A directive whose fragment holds no directive is replaced by the
      fragment's lines, and the other lines stay as they are. */
  lemma ImportSplicesFragment(store: Store, before: seq<string>, line: string, after: seq<string>, fuel: nat)
    requires NoImports(before) && NoImports(after)
    requires IsImportLine(line) && !IsBlank(ImportName(line))
    requires Answer(store.shared, ImportName(line)).Text?
    requires NoImports(Split(Answer(store.shared, ImportName(line)).text, '\n'))
    requires fuel >= 1
    ensures ProcessImports(store, before + [line] + after, fuel)
         == Ok(before + Split(Answer(store.shared, ImportName(line)).text, '\n') + after)
  {
    var fragment := Split(Answer(store.shared, ImportName(line)).text, '\n');
    Expansion.SpliceOnce(IsImportLine, LineFragment, store, before, line, after, fragment, fuel);
  }
}
