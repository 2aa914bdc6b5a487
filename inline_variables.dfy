/**
 * Inline variable extraction of the current pipeline (`get_inline_variables`
 * in infrastructure/page.py): lines of the form `[VARIABLE NAME="value"]`
 * declare variables and are taken out of the markdown.
 *
 * The dictionary the source fills in place is passed in and handed back.
 */
module InlineVariables {
  import opened Outcomes
  import opened PyStr
  import opened Dicts

  const VariableMarker := "[VARIABLE "

  /** The characters `value.strip('\'"')` removes. */
  const Quotes: set<char> := {'\'', '"'}

  /** Python's `s[n:]`, which is empty when `n` is past the end. */
  function SliceFrom(s: string, n: nat): (r: string)
    ensures n <= |s| ==> r == s[n..]
    ensures n > |s| ==> r == ""
  {
    if n <= |s| then s[n..] else ""
  }

  /** A non-empty line whose stripped, upper-cased form starts with the
      marker. Every such line leaves the markdown. */
  predicate IsDeclaration(line: string) {
    line != "" && StartsWith(Upper(Strip(line)), VariableMarker)
  }

  /** The value is quoted at both ends, with either quote character. */
  predicate HasQuotes(value: string) {
    (StartsWith(value, "\"") || StartsWith(value, "'")) && (EndsWith(value, "\"") || EndsWith(value, "'"))
  }

  /** The name and value a declaration line defines, if it is well formed:
      exactly one `=`, and a quoted value. */
  function ParseDeclaration(line: string): Option<(string, string)> {
    var text := StripChars(SliceFrom(Strip(line), |VariableMarker|), Chars({']'}));
    var parts := Split(text, '=');
    if |parts| != 2 then None
    else
      var name := Upper(Strip(parts[0]));
      var value := Strip(parts[1]);
      if !HasQuotes(value) then None
      else Some((name, Strip(StripChars(value, Chars(Quotes)))))
  }

  /** The lines kept so far and the variables declared so far. */
  datatype Scan = Scan(kept: seq<string>, vars: Dict)

  /** One line's turn. */
  function ScanLine(s: Scan, line: string): Scan {
    if !IsDeclaration(line) then Scan(s.kept + [line], s.vars)
    else
      match ParseDeclaration(line)
      case None => s
      case Some(nv) => Scan(s.kept, Put(s.vars, nv.0, nv.1))
  }

  /** The scan over `lines`, starting from the variables `vars`. */
  function ScanLines(lines: seq<string>, vars: Dict): Scan
    decreases |lines|
  {
    if lines == [] then Scan([], vars)
    else ScanLine(ScanLines(lines[..|lines| - 1], vars), lines[|lines| - 1])
  }

  /** `value` between double quotes. */
  function Quoted(value: string): string {
    "\"" + value + "\""
  }

  /** The declaration line `[VARIABLE name="value"]`. */
  function DeclarationLine(name: string, value: string): string {
    VariableMarker + name + "=" + Quoted(value) + "]"
  }

  /** The written line needs no stripping and is a declaration. */
  lemma DeclarationLineIsDeclaration(name: string, value: string)
    ensures Strip(DeclarationLine(name, value)) == DeclarationLine(name, value)
    ensures IsDeclaration(DeclarationLine(name, value))
  {
    var line := DeclarationLine(name, value);
    StripCharsAt(line, Whitespace, 0, |line|);
    assert Upper(line)[..|VariableMarker|] == VariableMarker by {
      forall i | 0 <= i < |VariableMarker|
        ensures Upper(line)[i] == VariableMarker[i]
      {
        assert line[i] == VariableMarker[i];
      }
    }
  }

  /** After the marker and without the closing bracket, the line is
      `name=` followed by the quoted value. */
  lemma DeclarationBody(name: string, value: string)
    requires name == "" || name[0] != ']'
    ensures StripChars(SliceFrom(DeclarationLine(name, value), |VariableMarker|), Chars({']'}))
         == name + "=" + Quoted(value)
  {
    var body := name + "=" + Quoted(value);
    var rest := body + "]";
    assert SliceFrom(DeclarationLine(name, value), |VariableMarker|) == rest;
    StripCharsAt(rest, Chars({']'}), 0, |rest| - 1);
    assert rest[..|rest| - 1] == body;
  }

  /** A quoted value needs no stripping, passes the quotes check, and loses
      exactly its two quotes when they are stripped. */
  lemma QuotedValue(value: string)
    requires value == "" || (value[0] !in Quotes && value[|value| - 1] !in Quotes)
    ensures Strip(Quoted(value)) == Quoted(value)
    ensures HasQuotes(Quoted(value))
    ensures StripChars(Quoted(value), Chars(Quotes)) == value
  {
    var q := Quoted(value);
    StripCharsAt(q, Whitespace, 0, |q|);
    assert q[..1] == "\"" && q[|q| - 1..] == "\"";
    if value == "" {
      StripCharsFacts(q, Chars(Quotes));
    } else {
      StripCharsAt(q, Chars(Quotes), 1, |q| - 1);
      assert q[1..|q| - 1] == value;
    }
  }

  /** A declaration written as `[VARIABLE name="value"]` is a declaration
      and reads back as the name stripped and upper-cased and the value
      stripped, when neither holds `=`, the name does not start with `]`
      and the value does not start or end with a quote. */
  lemma DeclarationRoundTrip(name: string, value: string)
    requires '=' !in name && '=' !in value
    requires name == "" || name[0] != ']'
    requires value == "" || (value[0] !in Quotes && value[|value| - 1] !in Quotes)
    ensures IsDeclaration(DeclarationLine(name, value))
    ensures ParseDeclaration(DeclarationLine(name, value)) == Some((Upper(Strip(name)), Strip(value)))
  {
    DeclarationLineIsDeclaration(name, value);
    DeclarationBody(name, value);
    assert name + "=" + Quoted(value) == name + ['='] + Quoted(value);
    SplitAfterPrefix(name, Quoted(value), '=');
    assert '=' !in Quoted(value);
    SplitNoSeparator(Quoted(value), '=');
    QuotedValue(value);
  }

  datatype Extracted = Extracted(markdown: string, vars: Dict)

  /** Markdown holding the marker in neither upper nor lower case is left
      alone; otherwise the declaration lines go, unless no variable is known
      at the end, in which case the markdown comes back as it was. */
  function ExtractSpec(markdown: string, vars: Dict): Extracted {
    if !Contains(markdown, VariableMarker) && !Contains(markdown, Lower(VariableMarker)) then
      Extracted(markdown, vars)
    else
      var s := ScanLines(Split(markdown, '\n'), vars);
      if |s.vars| > 0 then Extracted(Join(s.kept, '\n'), s.vars)
      else Extracted(markdown, s.vars)
  }

  /** `get_inline_variables`, line by line as the source does it. */
  method GetInlineVariables(markdown: string, newVars: Dict) returns (result: string, vars: Dict)
    ensures Extracted(result, vars) == ExtractSpec(markdown, newVars)
  {
    vars := newVars;
    if !Contains(markdown, VariableMarker) && !Contains(markdown, Lower(VariableMarker)) {
      return markdown, vars;
    }
    var lines := Split(markdown, '\n');
    var finalLines: seq<string> := [];
    var i := 0;
    while i < |lines|
      invariant 0 <= i <= |lines|
      invariant Scan(finalLines, vars) == ScanLines(lines[..i], newVars)
    {
      var line := lines[i];
      assert lines[..i + 1][..i] == lines[..i];
      i := i + 1;
      if !IsDeclaration(line) {
        finalLines := finalLines + [line];
        continue;
      }
      var declared := ParseDeclaration(line);
      if declared.None? {
        continue;
      }
      vars := Put(vars, declared.value.0, declared.value.1);
    }
    assert lines[..i] == lines;
    if |vars| > 0 {
      result := Join(finalLines, '\n');
    } else {
      result := markdown;
    }
  }

  /** `lines` without the declaration lines, by an independent definition
      that reads the lines front to back. */
  function NonDeclarations(lines: seq<string>): seq<string>
    decreases |lines|
  {
    if lines == [] then []
    else (if IsDeclaration(lines[0]) then [] else [lines[0]]) + NonDeclarations(lines[1..])
  }

  lemma {:induction false} NonDeclarationsAppend(lines: seq<string>, line: string)
    ensures NonDeclarations(lines + [line]) == NonDeclarations(lines) + NonDeclarations([line])
    decreases |lines|
  {
    if lines != [] {
      assert (lines + [line])[1..] == lines[1..] + [line];
      NonDeclarationsAppend(lines[1..], line);
    }
  }

  /** The kept lines are exactly the lines that are not declarations, in
      their order, whether or not the declarations parse. */
  lemma {:induction false} KeptAreNonDeclarations(lines: seq<string>, vars: Dict)
    ensures ScanLines(lines, vars).kept == NonDeclarations(lines)
    decreases |lines|
  {
    if lines != [] {
      var init := lines[..|lines| - 1];
      var last := lines[|lines| - 1];
      KeptAreNonDeclarations(init, vars);
      assert init + [last] == lines;
      NonDeclarationsAppend(init, last);
    }
  }

  lemma {:induction false} NonDeclarationsHaveNone(lines: seq<string>)
    ensures forall i :: 0 <= i < |NonDeclarations(lines)| ==> !IsDeclaration(NonDeclarations(lines)[i])
    ensures forall l :: l in NonDeclarations(lines) ==> l in lines
    decreases |lines|
  {
    if lines != [] {
      NonDeclarationsHaveNone(lines[1..]);
    }
  }

  /** A scan over lines without declarations keeps every line and declares
      nothing. */
  lemma {:induction false} NoDeclarationsKeepAll(lines: seq<string>, vars: Dict)
    requires forall i :: 0 <= i < |lines| ==> !IsDeclaration(lines[i])
    ensures ScanLines(lines, vars) == Scan(lines, vars)
    decreases |lines|
  {
    if lines != [] {
      NoDeclarationsKeepAll(lines[..|lines| - 1], vars);
      assert lines[..|lines| - 1] + [lines[|lines| - 1]] == lines;
    }
  }

  /** Markdown without declaration lines comes back unchanged, with the
      variables it was given. */
  lemma NoDeclarationsNoChange(markdown: string, vars: Dict)
    requires forall i :: 0 <= i < |Split(markdown, '\n')| ==> !IsDeclaration(Split(markdown, '\n')[i])
    ensures ExtractSpec(markdown, vars) == Extracted(markdown, vars)
  {
    NoDeclarationsKeepAll(Split(markdown, '\n'), vars);
  }

  /** When variables are found, no line of the result is a declaration. */
  lemma ResultHasNoDeclarations(markdown: string, vars: Dict)
    requires ExtractSpec(markdown, vars).markdown != markdown
    ensures var lines := Split(ExtractSpec(markdown, vars).markdown, '\n');
      forall i :: 0 <= i < |lines| ==> !IsDeclaration(lines[i])
  {
    var s := ScanLines(Split(markdown, '\n'), vars);
    KeptAreNonDeclarations(Split(markdown, '\n'), vars);
    NonDeclarationsHaveNone(Split(markdown, '\n'));
    if s.kept == [] {
      assert Split("", '\n') == [""];
    } else {
      forall i | 0 <= i < |s.kept| ensures '\n' !in s.kept[i] {
        assert s.kept[i] in Split(markdown, '\n');
      }
      SplitJoin(s.kept, '\n');
    }
  }

  /** Extraction is idempotent: once the declarations are out, a second
      pass with no variables finds nothing to do. */
  lemma ExtractIdempotent(markdown: string, vars: Dict)
    requires ExtractSpec(markdown, vars).markdown != markdown
    ensures var out := ExtractSpec(markdown, vars).markdown;
      ExtractSpec(out, []) == Extracted(out, [])
  {
    ResultHasNoDeclarations(markdown, vars);
    NoDeclarationsNoChange(ExtractSpec(markdown, vars).markdown, []);
  }

  /** Every declaration among `lines` is malformed. */
  predicate AllMalformed(lines: seq<string>) {
    forall i :: 0 <= i < |lines| ==> IsDeclaration(lines[i]) ==> ParseDeclaration(lines[i]).None?
  }

  /** Starting from no variables, lines whose declarations are all malformed
      declare nothing. */
  lemma {:induction false} MalformedOnlyDeclaresNothing(lines: seq<string>)
    requires AllMalformed(lines)
    ensures ScanLines(lines, []).vars == []
    decreases |lines|
  {
    if lines != [] {
      MalformedOnlyDeclaresNothing(lines[..|lines| - 1]);
    }
  }

  /** Starting from no variables, markdown whose declarations are all
      malformed comes back unchanged, malformed lines included. */
  lemma MalformedOnlyKeepsMarkdown(markdown: string)
    requires AllMalformed(Split(markdown, '\n'))
    ensures ExtractSpec(markdown, []) == Extracted(markdown, [])
  {
    MalformedOnlyDeclaresNothing(Split(markdown, '\n'));
  }

  /** The last well-formed declaration of a name gives its value. */
  lemma {:induction false} LastDeclarationWins(lines: seq<string>, vars: Dict, i: nat, name: string, value: string)
    requires i < |lines| && IsDeclaration(lines[i]) && ParseDeclaration(lines[i]) == Some((name, value))
    requires forall j :: i < j < |lines| && IsDeclaration(lines[j]) && ParseDeclaration(lines[j]).Some? ==>
      ParseDeclaration(lines[j]).value.0 != name
    ensures Get(ScanLines(lines, vars).vars, name) == Some(value)
    decreases |lines|
  {
    var init := lines[..|lines| - 1];
    if i < |lines| - 1 {
      LastDeclarationWins(init, vars, i, name, value);
    }
  }

  /** A line that is no declaration is kept, and declares nothing. */
  lemma ScanKeepsLine(lines: seq<string>, line: string, vars: Dict)
    requires !IsDeclaration(line)
    ensures var s := ScanLines(lines, vars);
      ScanLines(lines + [line], vars) == Scan(s.kept + [line], s.vars)
  {
    assert (lines + [line])[..|lines|] == lines;
  }

  /** Lines without declarations after a prefix are all kept and declare
      nothing more. */
  lemma {:induction false} ScanPastNonDeclarations(prefix: seq<string>, rest: seq<string>, vars: Dict)
    requires forall i :: 0 <= i < |rest| ==> !IsDeclaration(rest[i])
    ensures var s := ScanLines(prefix, vars);
      ScanLines(prefix + rest, vars) == Scan(s.kept + rest, s.vars)
    decreases |rest|
  {
    var s := ScanLines(prefix, vars);
    if rest == [] {
      assert prefix + rest == prefix && s.kept + rest == s.kept;
    } else {
      var init := rest[..|rest| - 1];
      var last := rest[|rest| - 1];
      ScanPastNonDeclarations(prefix, init, vars);
      ScanKeepsLine(prefix + init, last, vars);
      assert prefix + init + [last] == prefix + rest;
      assert s.kept + init + [last] == s.kept + rest;
    }
  }

  /** An upper-case name and a value, neither padded with whitespace, read
      back exactly as written: `[VARIABLE TITLE="Variables rule!"]`
      declares `TITLE` as `Variables rule!`. */
  lemma DeclarationReadsBackVerbatim(name: string, value: string)
    requires '=' !in name && '=' !in value
    requires name != "" && name[0] != ']' && !IsSpace(name[0]) && !IsSpace(name[|name| - 1])
    requires forall i :: 0 <= i < |name| ==> !('a' <= name[i] <= 'z')
    requires value != "" && !IsSpace(value[0]) && !IsSpace(value[|value| - 1])
    requires value[0] !in Quotes && value[|value| - 1] !in Quotes
    ensures ParseDeclaration(DeclarationLine(name, value)) == Some((name, value))
  {
    DeclarationRoundTrip(name, value);
    StripKeepsUnpadded(name);
    StripKeepsUnpadded(value);
    UpperKeepsUpper(name);
  }

  /** Text with no whitespace at either end needs no stripping. */
  lemma StripKeepsUnpadded(s: string)
    requires s != "" && !IsSpace(s[0]) && !IsSpace(s[|s| - 1])
    ensures Strip(s) == s
  {
    StripCharsAt(s, Whitespace, 0, |s|);
  }

  /** Text with no lower-case letter is its own upper-case form. */
  lemma UpperKeepsUpper(s: string)
    requires forall i :: 0 <= i < |s| ==> !('a' <= s[i] <= 'z')
    ensures Upper(s) == s
  {
  }

  /** A declaration line on its own declares its variable and keeps
      nothing. */
  lemma ScanDeclarationLine(name: string, value: string)
    requires '=' !in name && '=' !in value
    requires name == "" || name[0] != ']'
    requires value == "" || (value[0] !in Quotes && value[|value| - 1] !in Quotes)
    ensures ScanLines([DeclarationLine(name, value)], []) == Scan([], [(Upper(Strip(name)), Strip(value))])
  {
    DeclarationRoundTrip(name, value);
    assert [DeclarationLine(name, value)][..0] == [];
  }

  /** The marker opens the markdown, and the lines are the declaration
      line followed by the body's lines. */
  lemma DeclarationThenBodyLines(name: string, value: string, body: string)
    requires '\n' !in name && '\n' !in value
    ensures Contains(DeclarationLine(name, value) + "\n" + body, VariableMarker)
    ensures Split(DeclarationLine(name, value) + "\n" + body, '\n') == [DeclarationLine(name, value)] + Split(body, '\n')
  {
    var line := DeclarationLine(name, value);
    var markdown := line + "\n" + body;
    assert markdown[..|VariableMarker|] == VariableMarker;
    ContainsAt(markdown, VariableMarker, 0);
    assert '\n' !in line;
    assert markdown == line + ['\n'] + body;
    SplitAfterPrefix(line, body, '\n');
  }

  /** Markdown opening with a declaration line, followed by a body without
      declarations, comes back as the body, with the one variable the line
      declares. */
  lemma DeclarationThenBody(name: string, value: string, body: string)
    requires '=' !in name && '=' !in value && '\n' !in name && '\n' !in value
    requires name == "" || name[0] != ']'
    requires value == "" || (value[0] !in Quotes && value[|value| - 1] !in Quotes)
    requires forall i :: 0 <= i < |Split(body, '\n')| ==> !IsDeclaration(Split(body, '\n')[i])
    ensures ExtractSpec(DeclarationLine(name, value) + "\n" + body, [])
         == Extracted(body, [(Upper(Strip(name)), Strip(value))])
  {
    var line := DeclarationLine(name, value);
    DeclarationThenBodyLines(name, value, body);
    ScanDeclarationLine(name, value);
    ScanPastNonDeclarations([line], Split(body, '\n'), []);
    assert [] + Split(body, '\n') == Split(body, '\n');
  }

  /** Declared names hold no lower-case ASCII letter. */
  lemma {:induction false} DeclaredNamesUpperCase(lines: seq<string>, vars: Dict, name: string)
    requires name in Keys(ScanLines(lines, vars).vars) && name !in Keys(vars)
    ensures forall i :: 0 <= i < |name| ==> !('a' <= name[i] <= 'z')
    decreases |lines|
  {
    if lines != [] {
      var s := ScanLines(lines[..|lines| - 1], vars);
      var line := lines[|lines| - 1];
      if name in Keys(s.vars) {
        DeclaredNamesUpperCase(lines[..|lines| - 1], vars, name);
      } else {
        var nv := ParseDeclaration(line).value;
        PutKeys(s.vars, nv.0, nv.1);
      }
    }
  }
}
