/**
  A SQL search pattern compiled to a regular expression.

  In a pattern an underscore stands for one character, a percent sign for any run of characters, and
  a backslash makes the next character stand for itself (section 8.5 of ISO/IEC 9075:1992). The
  emitted text is read as a regular expression whose brackets follow section 9.3.5 of POSIX.1-2017 XBD.
*/
module SearchPattern {
  import opened TextUtil

  // The translation, token by token

  function Translate(pattern: string): string
    decreases |pattern|
  {
    if pattern == "" then ""
    else if pattern[0] == '\\' then
      if |pattern| == 1 then pattern else "[" + [pattern[1]] + "]" + Translate(pattern[2..])
    else if pattern[0] == '_' then "." + Translate(pattern[1..])
    else if pattern[0] == '%' then ".*" + Translate(pattern[1..])
    else [pattern[0]] + Translate(pattern[1..])
  }

  predicate Blank(pattern: string) {
    Trim(pattern) == ""
  }

  function RegexOf(pattern: string): string {
    if Blank(pattern) then "" else Translate(pattern)
  }

  /** No wildcard and no escape: text that stands for itself. */
  predicate Literal(s: string) {
    forall i | 0 <= i < |s| :: s[i] != '\\' && s[i] != '_' && s[i] != '%'
  }

  lemma {:induction false} TranslateLiteral(head: string, tail: string)
    requires Literal(head)
    ensures Translate(head + tail) == head + Translate(tail)
    decreases |head|
  {
    if head == "" {
      assert head + tail == tail;
    } else {
      TranslateLiteral(head[1..], tail);
      assert (head + tail)[1..] == head[1..] + tail;
    }
  }

  /** Appends the pending literal, if any, and the replacement of the token that ends it. */
  method UpdateRegexExpression(index: nat, start: nat, pattern: string, str: string, converted: string)
    returns (next: nat, result: string)
    requires start <= index <= |pattern|
    ensures next == index + 1 && result == converted + pattern[start..index] + str
  {
    result := converted;
    if index - start > 0 {
      result := result + pattern[start..index];
    }
    result := result + str;
    next := index + 1;
  }

  /**
    The loop's invariant: what is before token has been translated into converted, except for the
    literal text from start on; no character is lost or duplicated.
  */
  predicate Pending(pattern: string, start: nat, token: nat, converted: string) {
    && start <= token <= |pattern| && Literal(pattern[start..token])
    && converted + pattern[start..token] + Translate(pattern[token..]) == Translate(pattern)
  }

  lemma ExtendLiteral(pattern: string, start: nat, token: nat, converted: string)
    requires Pending(pattern, start, token, converted) && token < |pattern| && Literal([pattern[token]])
    ensures Pending(pattern, start, token + 1, converted)
  {
    assert [pattern[token]][0] == pattern[token];
    assert pattern[start..token + 1] == pattern[start..token] + [pattern[token]];
    assert pattern[token..] == [pattern[token]] + pattern[token + 1..];
    TranslateLiteral([pattern[token]], pattern[token + 1..]);
  }

  lemma EndToken(pattern: string, start: nat, token: nat, converted: string, length: nat, str: string)
    requires Pending(pattern, start, token, converted) && token + length <= |pattern|
    requires Translate(pattern[token..]) == str + Translate(pattern[token + length..])
    ensures Pending(pattern, token + length, token + length, converted + pattern[start..token] + str)
  {
  }

  lemma WildcardToken(pattern: string, token: nat)
    requires token < |pattern|
    ensures pattern[token] == '_' ==> Translate(pattern[token..]) == "." + Translate(pattern[token + 1..])
    ensures pattern[token] == '%' ==> Translate(pattern[token..]) == ".*" + Translate(pattern[token + 1..])
  {
  }

  lemma EscapeToken(pattern: string, token: nat)
    requires token + 1 < |pattern| && pattern[token] == '\\'
    ensures Translate(pattern[token..]) == "[" + [pattern[token + 1]] + "]" + Translate(pattern[token + 2..])
  {
  }

  lemma PendingEnd(pattern: string, start: nat, token: nat, converted: string)
    requires Pending(pattern, start, token, converted)
    requires pattern[token..] == "" || pattern[token..] == "\\"
    ensures converted + pattern[start..] == Translate(pattern)
  {
  }

  predicate AtIndex(pattern: string, start: nat, index: nat, escapeFound: bool, converted: string) {
    if escapeFound
    then 0 < index <= |pattern| && pattern[index - 1] == '\\' && Pending(pattern, start, index - 1, converted)
    else Pending(pattern, start, index, converted)
  }

  lemma AtStart(pattern: string)
    ensures AtIndex(pattern, 0, 0, false, "")
  {
    assert pattern[0..] == pattern && pattern[0..0] == "";
  }

  lemma NothingOrBackslash(pattern: string, token: nat)
    requires token == |pattern| || (token + 1 == |pattern| && pattern[token] == '\\')
    ensures pattern[token..] == "" || pattern[token..] == "\\"
  {
  }

  lemma AtEnd(pattern: string, start: nat, escapeFound: bool, converted: string)
    requires AtIndex(pattern, start, |pattern|, escapeFound, converted)
    ensures start <= |pattern|
    ensures (if start < |pattern| then converted + pattern[start..] else converted) == Translate(pattern)
  {
    var token := if escapeFound then |pattern| - 1 else |pattern|;
    NothingOrBackslash(pattern, token);
    PendingEnd(pattern, start, token, converted);
    if start == |pattern| {
      assert converted + pattern[start..] == converted;
    }
  }

  /** The loop body after a backslash that opened an escape. */
  method ConvertEscaped(pattern: string, index: nat, start: nat, converted: string)
    returns (start': nat, converted': string)
    requires index < |pattern| && AtIndex(pattern, start, index, true, converted)
    ensures AtIndex(pattern, start', index + 1, false, converted')
  {
    EscapeToken(pattern, index - 1);
    EndToken(pattern, start, index - 1, converted, 2, "[" + [pattern[index]] + "]");
    start', converted' :=
      UpdateRegexExpression(index - 1, start, pattern, "[" + [pattern[index]] + "]", converted);
    start' := start' + 1;
  }

  method ConvertWildcard(pattern: string, index: nat, start: nat, converted: string, str: string)
    returns (start': nat, converted': string)
    requires index < |pattern| && AtIndex(pattern, start, index, false, converted)
    requires (pattern[index] == '_' && str == ".") || (pattern[index] == '%' && str == ".*")
    ensures AtIndex(pattern, start', index + 1, false, converted')
  {
    WildcardToken(pattern, index);
    EndToken(pattern, start, index, converted, 1, str);
    start', converted' := UpdateRegexExpression(index, start, pattern, str, converted);
  }

  /** The loop body. */
  method ConvertCharacter(pattern: string, index: nat, start: nat, escapeFound: bool, converted: string)
    returns (start': nat, escapeFound': bool, converted': string)
    requires index < |pattern| && AtIndex(pattern, start, index, escapeFound, converted)
    ensures AtIndex(pattern, start', index + 1, escapeFound', converted')
  {
    start', escapeFound', converted' := start, false, converted;
    if escapeFound {
      start', converted' := ConvertEscaped(pattern, index, start, converted);
    } else if pattern[index] == '\\' {
      escapeFound' := true;
    } else if pattern[index] == '_' {
      start', converted' := ConvertWildcard(pattern, index, start, converted, ".");
    } else if pattern[index] == '%' {
      start', converted' := ConvertWildcard(pattern, index, start, converted, ".*");
    } else {
      ExtendLiteral(pattern, start, index, converted);
    }
  }

  /** The loop with its start index and escape flag is the token-by-token translation. */
  method ConvertPatternToRegex(pattern: string) returns (converted: string)
    ensures converted == RegexOf(pattern)
  {
    converted := "";
    if pattern == "" || Trim(pattern) == "" {
      return;
    }
    var escapeFound := false;
    var start: nat := 0;
    var index: nat := 0;
    AtStart(pattern);
    while index < |pattern|
      invariant index <= |pattern| && AtIndex(pattern, start, index, escapeFound, converted)
    {
      start, escapeFound, converted := ConvertCharacter(pattern, index, start, escapeFound, converted);
      index := index + 1;
    }
    AtEnd(pattern, start, escapeFound, converted);
    if |pattern| - start > 0 {
      converted := converted + pattern[start..];
    }
  }
}
