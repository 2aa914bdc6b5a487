/**
 * Variable substitution (`process_variables`) and inline variable
 * extraction (`get_inline_variables`) of the current pipeline
 * (infrastructure/page.py).
 *
 * A key `k` stands for the placeholder `$` + upper(strip(k)) + `$`. The keys
 * are visited in the dictionary's order and each one rewrites the text left
 * by the keys before it, so a value inserted for one key is searched again
 * by every later key.
 */
module PageVariables {
  import opened Outcomes
  import opened PyStr
  import opened Dicts

  /** The token a key stands for in the text. */
  function Placeholder(key: string): (p: string)
    ensures |p| == |Strip(key)| + 2 && p[0] == '$' && p[|p| - 1] == '$'
    ensures p != ""
  {
    "$" + Upper(Strip(key)) + "$"
  }

  /** One key's turn: its placeholder, when present, is replaced by the
      value everywhere. */
  function SubstituteOne(text: string, key: string, value: string): string {
    var p := Placeholder(key);
    if !Contains(text, p) then text else ReplaceAll(text, p, value)
  }

  /** The text after the keys of `data` have had their turns in order: the
      first entry rewrites the text, and the rest go on from its result. */
  function Substituted(text: string, data: Dict): string
    decreases |data|
  {
    if data == [] then text
    else Substituted(SubstituteOne(text, data[0].0, data[0].1), data[1..])
  }

  /** `process_variables`: empty text comes back as it is; otherwise an
      empty key, which has no placeholder, raises KeyError when its turn
      comes. */
  function SubstituteSpec(rawText: string, data: Dict): (r: Result<string>)
    ensures r.Err? <==> rawText != "" && "" in Keys(data)
    ensures r.Err? ==> r.error == KeyError("")
    ensures r.Ok? ==> r.value == Substituted(rawText, data)
  {
    if rawText == "" then
      NoDollarUnchanged(rawText, data);
      Ok(rawText)
    else if "" in Keys(data) then Err(KeyError(""))
    else Ok(Substituted(rawText, data))
  }

  /** `process_variables`, step by step as the source does it: the
      placeholders of the non-empty keys first, then one turn per key. */
  method ProcessVariables(rawText: string, data: Dict) returns (r: Result<string>)
    ensures r == SubstituteSpec(rawText, data)
  {
    if rawText == "" {
      return Ok(rawText);
    }
    var keys := Keys(data);
    var placeholders := map k | k in keys && k != "" :: Placeholder(k);
    var text := rawText;
    var i := 0;
    while i < |keys|
      invariant 0 <= i <= |keys|
      invariant forall j :: 0 <= j < i ==> data[j].0 != ""
      invariant Substituted(text, data[i..]) == Substituted(rawText, data)
    {
      var key := keys[i];
      if key !in placeholders {
        assert key == "";
        return Err(KeyError(key));
      }
      var placeholder := placeholders[key];
      if Contains(text, placeholder) {
        text := ReplaceAll(text, placeholder, data[i].1);
      }
      assert data[i..][1..] == data[i + 1..];
      i := i + 1;
    }
    return Ok(text);
  }

  /** Placeholders ignore the case and the surrounding whitespace of the
      key: `title`, `Title` and ` TITLE ` all stand for `$TITLE$`. */
  lemma PlaceholderIgnoresCase(key: string)
    ensures Placeholder(Lower(key)) == Placeholder(key)
    ensures Placeholder(Upper(key)) == Placeholder(key)
  {
    StripLower(key);
    UpperLower(Strip(key));
    StripUpper(key);
    UpperIdempotent(Strip(key));
  }

  /** Every placeholder holds a dollar sign, so text without one is never
      changed. */
  lemma {:induction false} NoDollarUnchanged(text: string, data: Dict)
    requires '$' !in text
    ensures Substituted(text, data) == text
    decreases |data|
  {
    if data != [] {
      MissingCharNotContained(text, Placeholder(data[0].0), '$');
      NoDollarUnchanged(text, data[1..]);
    }
  }

  /** Text holding none of the keys' placeholders comes back unchanged:
      every turn finds its placeholder absent and skips. */
  lemma {:induction false} NoPlaceholderUnchanged(text: string, data: Dict)
    requires forall k :: k in Keys(data) ==> !Contains(text, Placeholder(k))
    ensures Substituted(text, data) == text
    ensures "" !in Keys(data) ==> SubstituteSpec(text, data) == Ok(text)
    decreases |data|
  {
    if data != [] {
      assert Keys(data)[0] == data[0].0;
      forall k | k in Keys(data[1..])
        ensures !Contains(text, Placeholder(k))
      {
        var j :| 0 <= j < |data[1..]| && Keys(data[1..])[j] == k;
        assert Keys(data)[j + 1] == k;
      }
      NoPlaceholderUnchanged(text, data[1..]);
    }
  }

  /** The guard before each replacement changes nothing: without it every
      key would still leave the text as the guarded turn does. */
  lemma GuardIsRedundant(text: string, key: string, value: string)
    ensures SubstituteOne(text, key, value) == ReplaceAll(text, Placeholder(key), value)
  {
  }

  /** A value inserted for one key is searched by the next key: with `a`
      mapped to `$B$` and then `b` to `v`, `$A$` becomes `v`. */
  lemma InsertedValueIsRescanned(a: string, b: string, v: string)
    ensures Substituted(Placeholder(a), [(a, Placeholder(b)), (b, v)]) == v
  {
    var data := [(a, Placeholder(b)), (b, v)];
    assert data[1..] == [(b, v)] && data[1..][1..] == [];
    ReplaceWhole(Placeholder(a), Placeholder(b));
    ReplaceWhole(Placeholder(b), v);
    ContainsAt(Placeholder(a), Placeholder(a), 0);
    ContainsAt(Placeholder(b), Placeholder(b), 0);
    assert SubstituteOne(Placeholder(a), a, Placeholder(b)) == Placeholder(b);
    assert Substituted(Placeholder(b), [(b, v)]) == SubstituteOne(Placeholder(b), b, v);
  }

  /** The stripped key holds an ASCII letter. */
  predicate HasLetter(key: string) {
    exists i :: 0 <= i < |Strip(key)| && 'a' <= LowerChar(Strip(key)[i]) <= 'z'
  }

  /** Text without upper-case letters is left alone by keys whose
      placeholders hold a letter: `$title$` is not `$TITLE$`. */
  lemma {:induction false} LowerCaseTextUntouched(text: string, data: Dict)
    requires forall i :: 0 <= i < |text| ==> !('A' <= text[i] <= 'Z')
    requires forall j :: 0 <= j < |data| ==> HasLetter(data[j].0)
    ensures Substituted(text, data) == text
    decreases |data|
  {
    if data != [] {
      var key := data[0].0;
      var i :| 0 <= i < |Strip(key)| && 'a' <= LowerChar(Strip(key)[i]) <= 'z';
      var c := Placeholder(key)[i + 1];
      assert c == UpperChar(Strip(key)[i]);
      assert 'A' <= c <= 'Z';
      MissingCharNotContained(text, Placeholder(key), c);
      var rest := data[1..];
      assert forall j :: 0 <= j < |rest| ==> rest[j] == data[j + 1];
      LowerCaseTextUntouched(text, rest);
    }
  }
}
