/**
 * Parameter placeholders in a task's command template (main.go).
 *
 * A template token is one of three kinds:
 *  - an escaped literal, starting with "%%": the first '%' is dropped;
 *  - a placeholder, the whole token being '%' followed by one or more
 *    characters of [A-Za-z0-9_-]: it is replaced by the form value of that name;
 *  - anything else, which passes through unchanged.
 * The same whole-token grammar drives the discovery of the form fields.
 */
module Placeholders {

  /** The parameters of one request: form field name to value. */
  type Form = map<string, string>

  /** `r.FormValue(key)`: the value of the field, or "" when the form has no such field. */
  function FormValue(form: Form, key: string): (v: string)
    ensures key in form ==> v == form[key]
    ensures key !in form ==> v == ""
  {
    if key in form then form[key] else ""
  }

  /** Go's `strings.HasPrefix`. */
  predicate HasPrefix(s: string, prefix: string)
  {
    |prefix| <= |s| && s[..|prefix|] == prefix
  }

  /** One character of the class [A-Za-z0-9_-]. */
  predicate IsNameChar(c: char)
  {
    ('A' <= c <= 'Z') || ('a' <= c <= 'z') || ('0' <= c <= '9') || c == '_' || c == '-'
  }

  /** `[A-Za-z0-9_-]+`: a non-empty run of name characters. */
  predicate IsName(s: string)
  {
    |s| > 0 && forall i :: 0 <= i < |s| ==> IsNameChar(s[i])
  }

  /** The anchored grammar `^%([A-Za-z0-9_-]+)$`; `$` matches only at the end of the text. */
  predicate IsPlaceholder(token: string)
  {
    |token| > 0 && token[0] == '%' && IsName(token[1..])
  }

  /** A token that starts with the escape marker "%%". */
  predicate IsEscaped(token: string)
  {
    HasPrefix(token, "%%")
  }

  /**
   * `extractParamsFromCommand`: the names captured by the anchored pattern in one
   * token. The pattern can match only the whole token, so there is at most one.
   */
  function ExtractParams(token: string): (names: seq<string>)
    ensures |names| <= 1
    ensures |names| == 1 <==> IsPlaceholder(token)
    ensures forall n :: n in names ==> IsName(n) && "%" + n == token
  {
    if IsPlaceholder(token) then [token[1..]] else []
  }

  /** A '%' followed by a valid name is exactly the token from which that name is extracted. */
  lemma ExtractParamsOfPlaceholder(name: string)
    requires IsName(name)
    ensures IsPlaceholder("%" + name)
    ensures ExtractParams("%" + name) == [name]
  {
  }

  /** Escaped tokens and placeholders are disjoint: '%' is not a name character. */
  lemma {:induction false} EscapedIsNotPlaceholder(token: string)
    requires IsEscaped(token)
    ensures !IsPlaceholder(token)
    ensures ExtractParams(token) == []
  {
    assert token[1] == token[..2][1] == '%';
    assert token[1..][0] == token[1];
    assert !IsNameChar(token[1..][0]);
  }

  /**
   * Go's `strings.ReplaceAll(s, pattern, value)` for a non-empty pattern: every
   * non-overlapping occurrence, scanned from the left, is replaced.
   */
  function ReplaceAll(s: string, pattern: string, value: string): (r: string)
    requires |pattern| > 0
    decreases |s|
  {
    if |s| < |pattern| then s
    else if s[..|pattern|] == pattern then value + ReplaceAll(s[|pattern|..], pattern, value)
    else [s[0]] + ReplaceAll(s[1..], pattern, value)
  }

  /** Replacing a token that is exactly the pattern yields exactly the value. */
  lemma ReplaceAllWhole(pattern: string, value: string)
    requires |pattern| > 0
    ensures ReplaceAll(pattern, pattern, value) == value
  {
  }

  /** What one template token becomes, given the form of the request. */
  function ResolveToken(token: string, form: Form): (resolved: string)
  {
    if IsEscaped(token) then token[1..]
    else if IsPlaceholder(token) then FormValue(form, token[1..])
    else token
  }

  /** An escaped token loses its first character, whatever the form holds. */
  lemma ResolveEscaped(token: string, form: Form, other: Form)
    requires IsEscaped(token)
    ensures |ResolveToken(token, form)| == |token| - 1
    ensures "%" + ResolveToken(token, form) == token
    ensures ResolveToken(token, form) == ResolveToken(token, other)
  {
  }

  /** A placeholder becomes the value of the field it names, or "" for a missing field. */
  lemma ResolvePlaceholder(name: string, form: Form)
    requires IsName(name)
    ensures name in form ==> ResolveToken("%" + name, form) == form[name]
    ensures name !in form ==> ResolveToken("%" + name, form) == ""
  {
    PlaceholderIsNotEscaped(name);
    assert ("%" + name)[1..] == name;
  }

  /** A token "%name" with a valid name is not escaped: its second character is a name character. */
  lemma PlaceholderIsNotEscaped(name: string)
    requires IsName(name)
    ensures !IsEscaped("%" + name)
  {
    if IsEscaped("%" + name) {
      ExtractParamsOfPlaceholder(name);
      EscapedIsNotPlaceholder("%" + name);
    }
  }

  /** Tokens that are neither escaped nor placeholders pass through untouched. */
  lemma ResolvePassThrough(token: string, form: Form)
    requires !IsEscaped(token) && ExtractParams(token) == []
    ensures ResolveToken(token, form) == token
  {
  }

  /** The resolution of a token depends on the form only through the names extracted from it. */
  lemma ResolveTokenUsesOnlyItsName(token: string, form: Form, other: Form)
    requires forall n :: n in ExtractParams(token) ==> FormValue(form, n) == FormValue(other, n)
    ensures ResolveToken(token, form) == ResolveToken(token, other)
  {
  }

  /**
   * The resolution loop of `executeTask`: the template is copied into a fresh
   * array and each element is rewritten in place. The result has the template's
   * length and each element depends only on the token at the same position.
   */
  method ResolveArgs(command: seq<string>, form: Form) returns (argv: seq<string>)
    ensures |argv| == |command|
    ensures forall k :: 0 <= k < |command| ==> argv[k] == ResolveToken(command[k], form)
  {
    var args := new string[|command|](k requires 0 <= k < |command| => command[k]);
    for i := 0 to args.Length
      invariant forall k :: 0 <= k < i ==> args[k] == ResolveToken(command[k], form)
      invariant forall k :: i <= k < args.Length ==> args[k] == command[k]
    {
      var arg := args[i];
      if HasPrefix(arg, "%%") {
        args[i] := arg[1..];
      } else {
        var params := ExtractParams(arg);
        ghost var before := args[..];
        for j := 0 to |params|
          invariant j == 0 ==> args[i] == arg
          invariant j > 0 ==> args[i] == ResolveToken(arg, form)
          invariant forall k :: 0 <= k < args.Length && k != i ==> args[k] == before[k]
        {
          var param := params[j];
          var placeholder := "%" + param;
          var value := FormValue(form, param);
          ReplaceAllWhole(placeholder, value);
          args[i] := ReplaceAll(args[i], placeholder, value);
        }
        if params == [] {
          ResolvePassThrough(arg, form);
        }
      }
    }
    argv := args[..];
  }

  /** The names of all placeholders of a template, in template order. */
  function ParamsOf(command: seq<string>): (names: seq<string>)
  {
    if |command| == 0 then []
    else ParamsOf(command[..|command| - 1]) + ExtractParams(command[|command| - 1])
  }

  /** Extraction over a concatenation of templates is the concatenation of the extractions. */
  lemma {:induction false} ParamsOfAppend(left: seq<string>, right: seq<string>)
    ensures ParamsOf(left + right) == ParamsOf(left) + ParamsOf(right)
    decreases |right|
  {
    if |right| == 0 {
      assert left + right == left;
    } else {
      var init := right[..|right| - 1];
      assert (left + right)[..|left + right| - 1] == left + init;
      ParamsOfAppend(left, init);
    }
  }

  /** At most one name per token. */
  lemma {:induction false} ParamsOfLength(command: seq<string>)
    ensures |ParamsOf(command)| <= |command|
  {
    if |command| > 0 {
      ParamsOfLength(command[..|command| - 1]);
    }
  }

  /** A name is listed exactly when its placeholder token appears in the template. */
  lemma {:induction false} ParamsOfMembership(command: seq<string>, name: string)
    ensures name in ParamsOf(command) <==> IsName(name) && "%" + name in command
  {
    if |command| > 0 {
      var init, last := command[..|command| - 1], command[|command| - 1];
      ParamsOfMembership(init, name);
      assert command == init + [last];
      if IsName(name) && last == "%" + name {
        ExtractParamsOfPlaceholder(name);
      }
    }
  }

  /**
   * `extractParamsFromCommandList`: the per-token names appended in template
   * order. The list has no more entries than the template has tokens.
   */
  method ExtractParamsFromCommandList(command: seq<string>) returns (params: seq<string>)
    ensures params == ParamsOf(command)
    ensures |params| <= |command|
  {
    params := [];
    for i := 0 to |command|
      invariant params == ParamsOf(command[..i])
    {
      assert command[..i + 1][..i] == command[..i];
      params := params + ExtractParams(command[i]);
    }
    assert command[..|command|] == command;
    ParamsOfLength(command);
  }

  /**
   * Two forms that agree on every field the task form lists resolve the
   * template to the same argument vector.
   */
  lemma {:induction false} ResolveUsesOnlyListedFields(command: seq<string>, form: Form, other: Form, k: nat)
    requires k < |command|
    requires forall n :: n in ParamsOf(command) ==> FormValue(form, n) == FormValue(other, n)
    ensures ResolveToken(command[k], form) == ResolveToken(command[k], other)
  {
    forall n | n in ExtractParams(command[k])
      ensures FormValue(form, n) == FormValue(other, n)
    {
      assert "%" + n == command[k];
      ParamsOfMembership(command, n);
    }
    ResolveTokenUsesOnlyItsName(command[k], form, other);
  }

  /** Whole-token substitution, the `%%` escape, a missing field and tokens that pass through, on concrete templates. */
  lemma ResolveExamples()
    ensures ResolveToken("%Name", map["Name" := "hi"]) == "hi"
    ensures ResolveToken("echo", map["Name" := "hi"]) == "echo"
    ensures ResolveToken("a%Nameb", map["Name" := "hi"]) == "a%Nameb"
    ensures ResolveToken("%Host", map[]) == ""
    ensures ResolveToken("%%literal", map["literal" := "x"]) == "%literal"
    ensures ResolveToken("%%", map[]) == "%"
    ensures ResolveToken("%", map[]) == "%"
    ensures ResolveToken("%a.b", map["a.b" := "x"]) == "%a.b"
    ensures ResolveToken("%Name\n", map["Name\n" := "x"]) == "%Name\n"
  {
    ResolvePlaceholder("Name", map["Name" := "hi"]);
    ResolvePlaceholder("Host", map[]);
    assert "%%literal"[..2] == "%%";
    assert "%%"[..2] == "%%";
    assert !IsNameChar("a.b"[1]);
    assert !IsNameChar("Name\n"[4]);
    assert "a%Nameb"[0] == 'a';
  }
}
