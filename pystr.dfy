/**
 * The Python `str` operations the renderer relies on: `strip`, `strip(chars)`,
 * `upper`, `lower`, `startswith`, `endswith`, `in`, `replace`, `split` on one
 * character and `join`. Strings are sequences of characters.
 */
module PyStr {

  /** Python's `str.isspace` on one character, which is what `str.strip()`
      with no argument removes. */
  predicate IsSpace(c: char) {
    || c == ' ' || '\t' <= c <= '\r' || '\U{001C}' <= c <= '\U{001F}'
    || c == '\U{0085}' || c == '\U{00A0}' || c == '\U{1680}'
    || '\U{2000}' <= c <= '\U{200A}' || c == '\U{2028}' || c == '\U{2029}'
    || c == '\U{202F}' || c == '\U{205F}' || c == '\U{3000}'
  }

  /** The characters a strip removes: the ones named in its argument, or
      whitespace when it has none. */
  datatype CharClass = Chars(chars: set<char>) | Whitespace

  predicate In(c: char, cls: CharClass) {
    match cls
    case Chars(cs) => c in cs
    case Whitespace => IsSpace(c)
  }

  /** `s.lstrip(chars)` */
  function TrimStart(s: string, cs: CharClass): (r: string)
    ensures |r| <= |s|
    decreases |s|
  {
    if s != [] && In(s[0], cs) then TrimStart(s[1..], cs) else s
  }

  /** `s.rstrip(chars)` */
  function TrimEnd(s: string, cs: CharClass): (r: string)
    ensures |r| <= |s|
    decreases |s|
  {
    if s != [] && In(s[|s| - 1], cs) then TrimEnd(s[..|s| - 1], cs) else s
  }

  /** `s.strip(chars)` */
  function StripChars(s: string, cs: CharClass): string {
    TrimEnd(TrimStart(s, cs), cs)
  }

  /** `s.strip()` */
  function Strip(s: string): string {
    StripChars(s, Whitespace)
  }

  /** `not s or not s.strip()`: the string is empty or holds only
      whitespace. */
  predicate IsBlank(s: string)
    decreases |s|
  {
    s == [] || (IsSpace(s[0]) && IsBlank(s[1..]))
  }

  /** `lstrip` removes a prefix made of characters of `cs` and stops at the
      first character outside it. */
  lemma {:induction false} TrimStartFacts(s: string, cs: CharClass)
    ensures var r := TrimStart(s, cs);
      && r == s[|s| - |r|..]
      && (r == [] || !In(r[0], cs))
      && forall i :: 0 <= i < |s| - |r| ==> In(s[i], cs)
    decreases |s|
  {
    if s != [] && In(s[0], cs) {
      TrimStartFacts(s[1..], cs);
    }
  }

  /** `rstrip` removes a suffix made of characters of `cs` and stops at the
      last character outside it. */
  lemma {:induction false} TrimEndFacts(s: string, cs: CharClass)
    ensures var r := TrimEnd(s, cs);
      && r == s[..|r|]
      && (r == [] || !In(r[|r| - 1], cs))
      && forall i :: |r| <= i < |s| ==> In(s[i], cs)
    decreases |s|
  {
    if s != [] && In(s[|s| - 1], cs) {
      TrimEndFacts(s[..|s| - 1], cs);
    }
  }

  /** `s.strip(chars)` is the infix of `s` left once the characters of `cs`
      are removed from both ends: it is empty exactly when every character of
      `s` is in `cs`, and otherwise it neither starts nor ends with one. */
  lemma StripCharsFacts(s: string, cs: CharClass)
    ensures var r := StripChars(s, cs); var k := |s| - |TrimStart(s, cs)|;
      && k + |r| <= |s| && r == s[k..k + |r|]
      && (r == [] <==> forall i :: 0 <= i < |s| ==> In(s[i], cs))
      && (r != [] ==> !In(r[0], cs) && !In(r[|r| - 1], cs))
  {
    var t := TrimStart(s, cs);
    var r := TrimEnd(t, cs);
    TrimStartFacts(s, cs);
    TrimEndFacts(t, cs);
    var k := |s| - |t|;
    assert r == s[k..k + |r|];
  }

  /** `lstrip` stops at the first character outside `cs`. */
  lemma {:induction false} TrimStartAt(s: string, cs: CharClass, a: nat)
    requires a <= |s| && (a == |s| || !In(s[a], cs))
    requires forall i :: 0 <= i < a ==> In(s[i], cs)
    ensures TrimStart(s, cs) == s[a..]
    decreases a
  {
    if a > 0 {
      TrimStartAt(s[1..], cs, a - 1);
    }
  }

  /** `rstrip` stops at the last character outside `cs`. */
  lemma {:induction false} TrimEndAt(s: string, cs: CharClass, b: nat)
    requires b <= |s| && (b == 0 || !In(s[b - 1], cs))
    requires forall i :: b <= i < |s| ==> In(s[i], cs)
    ensures TrimEnd(s, cs) == s[..b]
    decreases |s| - b
  {
    if b < |s| {
      TrimEndAt(s[..|s| - 1], cs, b);
      assert s[..|s| - 1][..b] == s[..b];
    }
  }

  /** `s.strip(chars)` is the infix between the first and the last
      character outside `cs`. */
  lemma StripCharsAt(s: string, cs: CharClass, a: nat, b: nat)
    requires a < b <= |s| && !In(s[a], cs) && !In(s[b - 1], cs)
    requires forall i :: 0 <= i < a ==> In(s[i], cs)
    requires forall i :: b <= i < |s| ==> In(s[i], cs)
    ensures StripChars(s, cs) == s[a..b]
  {
    TrimStartAt(s, cs, a);
    TrimEndAt(s[a..], cs, b - a);
    assert s[a..][..b - a] == s[a..b];
  }

  /** A string is blank exactly when all its characters are whitespace. */
  lemma {:induction false} BlankIffAllSpace(s: string)
    ensures IsBlank(s) <==> forall i :: 0 <= i < |s| ==> IsSpace(s[i])
    decreases |s|
  {
    if s != [] {
      BlankIffAllSpace(s[1..]);
      assert forall i :: 1 <= i < |s| ==> s[i] == s[1..][i - 1];
    }
  }

  /** Blank is what `not s.strip()` tests: stripping leaves nothing. */
  lemma BlankIffStripEmpty(s: string)
    ensures IsBlank(s) <==> Strip(s) == ""
  {
    BlankIffAllSpace(s);
    StripCharsFacts(s, Whitespace);
  }

  function LowerChar(c: char): char {
    if 'A' <= c <= 'Z' then (c as int + 32) as char else c
  }

  function UpperChar(c: char): char {
    if 'a' <= c <= 'z' then (c as int - 32) as char else c
  }

  /** `s.lower()` on the ASCII letters. */
  function Lower(s: string): (r: string)
    ensures |r| == |s|
    ensures forall i :: 0 <= i < |r| ==> !('A' <= r[i] <= 'Z')
  {
    seq(|s|, i requires 0 <= i < |s| => LowerChar(s[i]))
  }

  /** `s.upper()` on the ASCII letters. */
  function Upper(s: string): (r: string)
    ensures |r| == |s|
    ensures forall i :: 0 <= i < |r| ==> !('a' <= r[i] <= 'z')
  {
    seq(|s|, i requires 0 <= i < |s| => UpperChar(s[i]))
  }

  /** `s.startswith(p)` */
  predicate StartsWith(s: string, p: string) {
    |p| <= |s| && s[..|p|] == p
  }

  /** `s.endswith(p)` */
  predicate EndsWith(s: string, p: string) {
    |p| <= |s| && s[|s| - |p|..] == p
  }

  /** `p in s` */
  predicate Contains(s: string, p: string)
    decreases |s|
  {
    StartsWith(s, p) || (s != [] && Contains(s[1..], p))
  }

  /** `s.replace(pat, rep)`: every non-overlapping occurrence of `pat`, found
      left to right, is replaced; the replacement text is not searched again. */
  function ReplaceAll(s: string, pat: string, rep: string): (r: string)
    requires pat != ""
    ensures !Contains(s, pat) ==> r == s
    decreases |s|
  {
    if s == [] then []
    else if StartsWith(s, pat) then rep + ReplaceAll(s[|pat|..], pat, rep)
    else [s[0]] + ReplaceAll(s[1..], pat, rep)
  }

  /** A text that is exactly the pattern becomes the replacement. */
  lemma ReplaceWhole(s: string, rep: string)
    requires s != ""
    ensures ReplaceAll(s, s, rep) == rep
  {
    assert s[|s|..] == [];
  }

  /** A pattern that opens the text and does not occur in the rest is
      replaced once. */
  lemma ReplacePrefix(pat: string, rest: string, rep: string)
    requires pat != "" && !Contains(rest, pat)
    ensures ReplaceAll(pat + rest, pat, rep) == rep + rest
  {
    var s := pat + rest;
    assert s[..|pat|] == pat && s[|pat|..] == rest;
  }

  /** Removing a one-character pattern that only ends the text. */
  lemma {:induction false} ReplaceLastChar(t: string, c: char, rep: string)
    requires c !in t
    ensures ReplaceAll(t + [c], [c], rep) == t + rep
    decreases |t|
  {
    if t != [] {
      assert (t + [c])[1..] == t[1..] + [c];
      ReplaceLastChar(t[1..], c, rep);
      assert [t[0]] + t[1..] == t;
    }
  }

  /** `sep.join(parts)` for a one-character separator. */
  function Join(parts: seq<string>, sep: char): string
    decreases |parts|
  {
    if parts == [] then ""
    else if |parts| == 1 then parts[0]
    else parts[0] + [sep] + Join(parts[1..], sep)
  }

  /** `s.split(sep)` for a one-character separator: never empty, no part
      holds the separator, and joining the parts gives `s` back. */
  function Split(s: string, sep: char): (parts: seq<string>)
    ensures |parts| >= 1
    ensures forall i :: 0 <= i < |parts| ==> sep !in parts[i]
    ensures Join(parts, sep) == s
    decreases |s|
  {
    if s == [] then [""]
    else
      var rest := Split(s[1..], sep);
      if s[0] == sep then
        assert s == [sep] + s[1..];
        [""] + rest
      else
        var parts := [[s[0]] + rest[0]] + rest[1..];
        assert Join(parts, sep) == s by {
          if |rest| > 1 {
            assert Join(rest, sep) == rest[0] + [sep] + Join(rest[1..], sep);
            assert parts[1..] == rest[1..];
          }
          assert s == [s[0]] + s[1..];
        }
        parts
  }

  /** A string without the separator splits into itself alone. */
  lemma {:induction false} SplitNoSeparator(s: string, sep: char)
    requires sep !in s
    ensures Split(s, sep) == [s]
    decreases |s|
  {
    if s != [] {
      SplitNoSeparator(s[1..], sep);
      assert [s[0]] + s[1..] == s;
    }
  }

  /** Splitting right after a separator-free prefix. */
  lemma {:induction false} SplitAfterPrefix(a: string, t: string, sep: char)
    requires sep !in a
    ensures Split(a + [sep] + t, sep) == [a] + Split(t, sep)
    decreases |a|
  {
    if a == [] {
      assert a + [sep] + t == [sep] + t;
      assert ([sep] + t)[1..] == t;
    } else {
      var s := a + [sep] + t;
      assert s[0] == a[0] && s[1..] == a[1..] + [sep] + t;
      SplitAfterPrefix(a[1..], t, sep);
      assert [a[0]] + a[1..] == a;
    }
  }

  /** The other direction of the round trip: parts without the separator
      survive a join followed by a split. */
  lemma {:induction false} SplitJoin(parts: seq<string>, sep: char)
    requires |parts| >= 1
    requires forall i :: 0 <= i < |parts| ==> sep !in parts[i]
    ensures Split(Join(parts, sep), sep) == parts
    decreases |parts|
  {
    if |parts| == 1 {
      SplitNoSeparator(parts[0], sep);
    } else {
      SplitJoin(parts[1..], sep);
      SplitAfterPrefix(parts[0], Join(parts[1..], sep), sep);
      assert [parts[0]] + parts[1..] == parts;
    }
  }

  /** A pattern holding a character the text lacks does not occur in it. */
  lemma {:induction false} MissingCharNotContained(s: string, p: string, c: char)
    requires c in p && c !in s
    ensures !Contains(s, p)
    decreases |s|
  {
    if s != [] {
      MissingCharNotContained(s[1..], p, c);
    }
  }

  /** An occurrence of `p` at position `k` of `s`. */
  lemma {:induction false} ContainsAt(s: string, p: string, k: nat)
    requires k + |p| <= |s| && s[k..k + |p|] == p
    ensures Contains(s, p)
    decreases k
  {
    if k > 0 {
      assert s[1..][k - 1..k - 1 + |p|] == s[k..k + |p|];
      ContainsAt(s[1..], p, k - 1);
    }
  }

  lemma {:induction false} TrimStartLower(s: string, cs: CharClass)
    requires forall c :: In(c, cs) ==> !('A' <= c <= 'Z') && !('a' <= c <= 'z')
    ensures TrimStart(Lower(s), cs) == Lower(TrimStart(s, cs))
    decreases |s|
  {
    if s != [] {
      assert Lower(s)[1..] == Lower(s[1..]);
      TrimStartLower(s[1..], cs);
    }
  }

  lemma {:induction false} TrimEndLower(s: string, cs: CharClass)
    requires forall c :: In(c, cs) ==> !('A' <= c <= 'Z') && !('a' <= c <= 'z')
    ensures TrimEnd(Lower(s), cs) == Lower(TrimEnd(s, cs))
    decreases |s|
  {
    if s != [] {
      assert Lower(s)[..|s| - 1] == Lower(s[..|s| - 1]);
      TrimEndLower(s[..|s| - 1], cs);
    }
  }

  lemma {:induction false} TrimStartUpper(s: string, cs: CharClass)
    requires forall c :: In(c, cs) ==> !('A' <= c <= 'Z') && !('a' <= c <= 'z')
    ensures TrimStart(Upper(s), cs) == Upper(TrimStart(s, cs))
    decreases |s|
  {
    if s != [] {
      assert Upper(s)[1..] == Upper(s[1..]);
      TrimStartUpper(s[1..], cs);
    }
  }

  lemma {:induction false} TrimEndUpper(s: string, cs: CharClass)
    requires forall c :: In(c, cs) ==> !('A' <= c <= 'Z') && !('a' <= c <= 'z')
    ensures TrimEnd(Upper(s), cs) == Upper(TrimEnd(s, cs))
    decreases |s|
  {
    if s != [] {
      assert Upper(s)[..|s| - 1] == Upper(s[..|s| - 1]);
      TrimEndUpper(s[..|s| - 1], cs);
    }
  }

  /** Upper-casing and stripping commute. */
  lemma StripUpper(s: string)
    ensures Strip(Upper(s)) == Upper(Strip(s))
  {
    TrimStartUpper(s, Whitespace);
    TrimEndUpper(TrimStart(s, Whitespace), Whitespace);
  }

  lemma UpperIdempotent(s: string)
    ensures Upper(Upper(s)) == Upper(s)
  {
  }

  /** Upper-casing forgets an earlier lower-casing. */
  lemma UpperLower(s: string)
    ensures Upper(Lower(s)) == Upper(s)
  {
  }

  /** Lower-casing and stripping commute: whitespace has no case. */
  lemma StripLower(s: string)
    ensures Strip(Lower(s)) == Lower(Strip(s))
  {
    TrimStartLower(s, Whitespace);
    TrimEndLower(TrimStart(s, Whitespace), Whitespace);
  }

  lemma LowerIdempotent(s: string)
    ensures Lower(Lower(s)) == Lower(s)
  {
  }

  lemma StripIdempotent(s: string)
    ensures Strip(Strip(s)) == Strip(s)
  {
    var r := Strip(s);
    StripCharsFacts(s, Whitespace);
    if r != [] {
      assert TrimStart(r, Whitespace) == r;
      assert TrimEnd(r, Whitespace) == r;
    }
  }

  /** `path.strip().lower()`, the normalisation of a template path, is
      idempotent. */
  lemma NormaliseIdempotent(s: string)
    ensures Lower(Strip(Lower(Strip(s)))) == Lower(Strip(s))
  {
    StripLower(Strip(s));
    StripIdempotent(s);
    LowerIdempotent(Strip(s));
  }
}
