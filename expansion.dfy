/**
 * The directive-expansion scheme both revisions of `process_imports` follow:
 * find the first line that is a directive, replace it by the lines its
 * fragment yields, and start again from the top of the spliced list. The two
 * revisions differ only in which lines are directives and in how a fragment
 * is fetched, so both are parameters here; `source` is what the fragments
 * are fetched from.
 *
 * Neither revision has a cycle or depth guard: a fragment that imports itself
 * recurses until Python's recursion limit raises. The expansion therefore
 * carries an explicit fuel, the number of splices it may still perform, and
 * reports `RecursionLimit` when a directive remains and the fuel is spent.
 */
module Expansion {
  import opened Outcomes

  /** No line of `lines` is a directive. */
  predicate NoDirectives(isDirective: string -> bool, lines: seq<string>) {
    forall i :: 0 <= i < |lines| ==> !isDirective(lines[i])
  }

  /** The index of the first directive, if any. */
  function FirstDirective(isDirective: string -> bool, lines: seq<string>): (r: Option<nat>)
    ensures r.Some? ==> r.value < |lines| && isDirective(lines[r.value])
    ensures r.Some? ==> NoDirectives(isDirective, lines[..r.value])
    ensures r.None? <==> NoDirectives(isDirective, lines)
    decreases |lines|
  {
    if lines == [] then None
    else if isDirective(lines[0]) then Some(0)
    else
      match FirstDirective(isDirective, lines[1..])
      case None => None
      case Some(i) =>
        assert forall j :: 1 <= j < i + 1 ==> lines[j] == lines[1..][..i][j - 1];
        Some(i + 1)
  }

  /** The first directive is the one after a directive-free prefix. */
  lemma {:induction false} FirstDirectiveAfter(isDirective: string -> bool, before: seq<string>, line: string, after: seq<string>)
    requires NoDirectives(isDirective, before) && isDirective(line)
    ensures FirstDirective(isDirective, before + [line] + after) == Some(|before|)
    decreases |before|
  {
    if before != [] {
      var lines := before + [line] + after;
      assert lines[1..] == before[1..] + [line] + after;
      FirstDirectiveAfter(isDirective, before[1..], line, after);
      assert lines[0] == before[0];
    }
  }

  /** `lines` with the line at `i` replaced by `fragment`. */
  function Splice(lines: seq<string>, i: nat, fragment: seq<string>): seq<string>
    requires i < |lines|
  {
    lines[..i] + fragment + lines[i + 1..]
  }

  /** The lines before the directive keep their places, the fragment takes
      the directive's, and the lines after it follow. */
  lemma SpliceParts(lines: seq<string>, i: nat, fragment: seq<string>)
    requires i < |lines|
    ensures var r := Splice(lines, i, fragment);
      && |r| == |lines| - 1 + |fragment|
      && r[..i] == lines[..i]
      && r[i..i + |fragment|] == fragment
      && r[i + |fragment|..] == lines[i + 1..]
  {
  }

  /** Splicing at `i` keeps every prefix up to `i`. */
  lemma SplicePrefix(lines: seq<string>, i: nat, fragment: seq<string>, k: nat)
    requires k <= i < |lines|
    ensures Splice(lines, i, fragment)[..k] == lines[..k]
  {
    var r := Splice(lines, i, fragment);
    assert r[..k] == (lines[..i] + fragment)[..k];
  }

  /** The expansion with `fuel` splices left. When it succeeds no directive
      is left; a list without directives comes back unchanged. */
  function Expand<S>(
    isDirective: string -> bool, fragment: (S, string) -> Result<seq<string>>, source: S,
    lines: seq<string>, fuel: nat): (r: Result<seq<string>>)
    ensures r.Ok? ==> NoDirectives(isDirective, r.value)
    ensures NoDirectives(isDirective, lines) ==> r == Ok(lines)
    decreases fuel
  {
    match FirstDirective(isDirective, lines)
    case None => Ok(lines)
    case Some(i) =>
      if fuel == 0 then Err(RecursionLimit)
      else
        var f :- fragment(source, lines[i]);
        Expand(isDirective, fragment, source, Splice(lines, i, f), fuel - 1)
  }

  /** The fuel only bounds the expansion: a result reached with some fuel is
      reached with any larger fuel. */
  lemma {:induction false} FuelMonotone<S>(
    isDirective: string -> bool, fragment: (S, string) -> Result<seq<string>>, source: S,
    lines: seq<string>, fuel: nat, more: nat)
    requires fuel <= more
    requires Expand(isDirective, fragment, source, lines, fuel) != Err(RecursionLimit)
    ensures Expand(isDirective, fragment, source, lines, more) == Expand(isDirective, fragment, source, lines, fuel)
    decreases fuel
  {
    var first := FirstDirective(isDirective, lines);
    if first.Some? {
      var i := first.value;
      var f := fragment(source, lines[i]);
      if f.Ok? {
        var spliced := Splice(lines, i, f.value);
        FuelMonotone(isDirective, fragment, source, spliced, fuel - 1, more - 1);
        assert Expand(isDirective, fragment, source, lines, more) == Expand(isDirective, fragment, source, spliced, more - 1);
      }
    }
  }

  /** Lines ahead of every directive are never touched: they open the
      expanded list in the same order. */
  lemma {:induction false} PrefixPreserved<S>(
    isDirective: string -> bool, fragment: (S, string) -> Result<seq<string>>, source: S,
    lines: seq<string>, fuel: nat, k: nat)
    requires k <= |lines| && NoDirectives(isDirective, lines[..k])
    requires Expand(isDirective, fragment, source, lines, fuel).Ok?
    ensures var out := Expand(isDirective, fragment, source, lines, fuel).value;
      k <= |out| && out[..k] == lines[..k]
    decreases fuel
  {
    var first := FirstDirective(isDirective, lines);
    if first.Some? {
      var i := first.value;
      assert forall j :: 0 <= j < k ==> !isDirective(lines[j]) by {
        forall j | 0 <= j < k ensures !isDirective(lines[j]) {
          assert lines[..k][j] == lines[j];
        }
      }
      var f := fragment(source, lines[i]);
      var spliced := Splice(lines, i, f.value);
      SplicePrefix(lines, i, f.value, k);
      PrefixPreserved(isDirective, fragment, source, spliced, fuel - 1, k);
    }
  }

  /** A directive after a directive-free prefix, whose fragment holds no
      directive, is replaced by its fragment in one splice, and the other
      lines stay as they are. */
  lemma SpliceOnce<S>(
    isDirective: string -> bool, fragment: (S, string) -> Result<seq<string>>, source: S,
    before: seq<string>, line: string, after: seq<string>, f: seq<string>, fuel: nat)
    requires NoDirectives(isDirective, before) && NoDirectives(isDirective, after) && isDirective(line)
    requires fragment(source, line) == Ok(f) && NoDirectives(isDirective, f) && fuel >= 1
    ensures Expand(isDirective, fragment, source, before + [line] + after, fuel) == Ok(before + f + after)
  {
    var lines := before + [line] + after;
    var out := before + f + after;
    FirstDirectiveAfter(isDirective, before, line, after);
    assert lines[|before|] == line;
    assert Splice(lines, |before|, f) == out by {
      assert lines[..|before|] == before;
      assert lines[|before| + 1..] == after;
    }
    assert NoDirectives(isDirective, out) by {
      forall i | 0 <= i < |out| ensures !isDirective(out[i]) {
        if i < |before| {
          assert out[i] == before[i];
        } else if i < |before| + |f| {
          assert out[i] == f[i - |before|];
        } else {
          assert out[i] == after[i - |before| - |f|];
        }
      }
    }
  }

  /** An error from the first directive's fragment ends the expansion with
      that error, whatever the lines after it hold. */
  lemma FragmentErrorPropagates<S>(
    isDirective: string -> bool, fragment: (S, string) -> Result<seq<string>>, source: S,
    lines: seq<string>, fuel: nat, i: nat)
    requires FirstDirective(isDirective, lines) == Some(i) && fuel > 0
    requires fragment(source, lines[i]).Err?
    ensures Expand(isDirective, fragment, source, lines, fuel) == Err(fragment(source, lines[i]).error)
  {
  }

  /** A directive whose fragment is the directive itself exhausts any fuel. */
  lemma {:induction false} SelfReferenceExhaustsFuel<S>(
    isDirective: string -> bool, fragment: (S, string) -> Result<seq<string>>, source: S,
    line: string, fuel: nat)
    requires isDirective(line) && fragment(source, line) == Ok([line])
    ensures Expand(isDirective, fragment, source, [line], fuel) == Err(RecursionLimit)
    decreases fuel
  {
    if fuel > 0 {
      assert Splice([line], 0, [line]) == [line];
      SelfReferenceExhaustsFuel(isDirective, fragment, source, line, fuel - 1);
    }
  }
}
