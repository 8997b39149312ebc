/** What a search pattern matches, what its translation accepts, and when the two are the same. */
module PatternMeaning {
  import opened OdbcTypes
  import opened TextUtil
  import opened SearchPattern

  // The pattern's own meaning

  /** A backslash that escapes nothing makes the pattern match nothing. */
  predicate Like(pattern: string, text: string)
    decreases |pattern|
  {
    if pattern == "" then text == ""
    else if pattern[0] == '\\' then
      |pattern| > 1 && text != "" && text[0] == pattern[1] && Like(pattern[2..], text[1..])
    else if pattern[0] == '_' then text != "" && Like(pattern[1..], text[1..])
    else if pattern[0] == '%' then exists k: nat | k <= |text| :: Like(pattern[1..], text[k..])
    else text != "" && text[0] == pattern[0] && Like(pattern[1..], text[1..])
  }

  // Reading a regular expression

  datatype Atom = Any | One(c: char)

  predicate IsQuantifier(c: char) {
    c == '*' || c == '+' || c == '?'
  }

  /** The metacharacters whose reading is modelled. */
  predicate IsMark(c: char) {
    c == '.' || IsQuantifier(c)
  }

  predicate IsMetacharacter(c: char) {
    IsMark(c) || c == '[' || c == ']' || c == '^' || c == '$' || c == '(' || c == ')' || c == '{' || c == '}'
    || c == '|' || c == '\\'
  }

  /** The first atom of an expression and its length; a bracket holds one character, not a caret. */
  function FirstAtom(re: string): Option<(Atom, nat)>
    requires re != ""
  {
    if re[0] == '.' then Some((Any, 1))
    else if re[0] == '[' then
      if |re| >= 3 && re[1] != '^' && re[2] == ']' then Some((One(re[1]), 3)) else None
    else if IsMetacharacter(re[0]) then None
    else Some((One(re[0]), 1))
  }

  predicate Fits(atom: Atom, c: char) {
    atom == Any || atom.c == c
  }

  predicate AllFit(atom: Atom, text: string) {
    forall i | 0 <= i < |text| :: Fits(atom, text[i])
  }

  predicate Times(quantifier: char, k: nat) {
    (quantifier == '+' ==> k >= 1) && (quantifier == '?' ==> k <= 1)
  }

  /**
    The whole text is matched: atoms one after the other, each with one quantifier at most. An expression
    that cannot be read so, a quantifier without an atom before it among them, accepts nothing.
  */
  predicate Accepts(re: string, text: string)
    decreases |re|, 0
  {
    if re == "" then text == ""
    else match FirstAtom(re)
      case None => false
      case Some((atom, length)) =>
        if length < |re| && IsQuantifier(re[length]) then
          Repeats(atom, re[length], re[length + 1..], text)
        else if length <= |re| then
          text != "" && Fits(atom, text[0]) && Accepts(re[length..], text[1..])
        else false
  }

  /** The atom takes as many characters as the quantifier allows, and the rest of the text is matched. */
  predicate Repeats(atom: Atom, quantifier: char, rest: string, text: string)
    decreases |rest|, 1
  {
    exists k: nat | k <= |text| ::
      Times(quantifier, k) && AllFit(atom, text[..k]) && Accepts(rest, text[k..])
  }

  ghost predicate Dead(re: string) {
    forall text :: !Accepts(re, text)
  }

  // The patterns considered

  /**
    No escaped caret, and no metacharacter standing for itself, except for the dot and the quantifiers,
    whose effect is determined below.
  */
  predicate Translatable(pattern: string)
    decreases |pattern|
  {
    pattern == ""
    || (if pattern[0] == '\\' then |pattern| == 1 || (pattern[1] != '^' && Translatable(pattern[2..]))
        else (IsMark(pattern[0]) || !IsMetacharacter(pattern[0])) && Translatable(pattern[1..]))
  }

  /** The last character is a backslash that escapes nothing. */
  predicate Dangling(pattern: string)
    decreases |pattern|
  {
    pattern != ""
    && if pattern[0] == '\\' then |pattern| == 1 || Dangling(pattern[2..]) else Dangling(pattern[1..])
  }

  /** The number of marks that stand for themselves without a backslash. */
  function BareMarks(pattern: string): nat
    decreases |pattern|
  {
    if pattern == "" then 0
    else if pattern[0] == '\\' then if |pattern| == 1 then 0 else BareMarks(pattern[2..])
    else BareMarks(pattern[1..]) + if IsMark(pattern[0]) then 1 else 0
  }

  // Reading one translated token

  lemma NoStrayQuantifier(pattern: string)
    requires Translatable(pattern) && (pattern == "" || !IsQuantifier(pattern[0]))
    ensures Translate(pattern) == "" || !IsQuantifier(Translate(pattern)[0])
  {
  }

  lemma FirstAtomStays(atom: Atom, token: string, rest: string)
    requires token != "" && FirstAtom(token) == Some((atom, |token|))
    ensures FirstAtom(token + rest) == FirstAtom(token)
  {
  }

  lemma BehindQuantifier(token: string, quantifier: char, rest: string)
    ensures
      var re := token + ([quantifier] + rest);
      re[|token|] == quantifier && re[|token| + 1..] == rest
  {
  }

  lemma AcceptsToken(atom: Atom, token: string, rest: string, text: string)
    requires token != "" && FirstAtom(token) == Some((atom, |token|))
    requires rest == "" || !IsQuantifier(rest[0])
    ensures Accepts(token + rest, text) <==> text != "" && Fits(atom, text[0]) && Accepts(rest, text[1..])
  {
    FirstAtomStays(atom, token, rest);
    assert (token + rest)[|token|..] == rest;
  }

  lemma AcceptsRepeated(atom: Atom, token: string, quantifier: char, rest: string, text: string)
    requires token != "" && FirstAtom(token) == Some((atom, |token|)) && IsQuantifier(quantifier)
    ensures Accepts(token + ([quantifier] + rest), text) <==> Repeats(atom, quantifier, rest, text)
  {
    FirstAtomStays(atom, token, [quantifier] + rest);
    BehindQuantifier(token, quantifier, rest);
  }

  lemma AcceptsAnyRun(rest: string, text: string)
    ensures Accepts(".*" + rest, text) <==> exists k: nat | k <= |text| :: Accepts(rest, text[k..])
  {
    assert "." + (['*'] + rest) == ".*" + rest;
    AcceptsRepeated(Any, ".", '*', rest, text);
    if k: nat :| k <= |text| && Accepts(rest, text[k..]) {
      assert Times('*', k) && AllFit(Any, text[..k]);
    }
  }

  /** The atom and the text of a token that stands for one character. */
  function TokenOf(pattern: string): (Atom, string, nat)
    requires pattern != "" && pattern[0] != '%' && !IsQuantifier(pattern[0])
    requires pattern[0] == '\\' ==> |pattern| > 1
  {
    if pattern[0] == '\\' then (One(pattern[1]), "[" + [pattern[1]] + "]", 2)
    else if pattern[0] == '_' || pattern[0] == '.' then (Any, ".", 1)
    else (One(pattern[0]), [pattern[0]], 1)
  }

  lemma TokenReads(pattern: string)
    requires Translatable(pattern) && pattern != "" && pattern[0] != '%' && !IsQuantifier(pattern[0])
    requires pattern[0] == '\\' ==> |pattern| > 1
    ensures
      var (atom, token, length) := TokenOf(pattern);
      && token != "" && FirstAtom(token) == Some((atom, |token|))
      && Translate(pattern) == token + Translate(pattern[length..]) && Translatable(pattern[length..])
  {
  }

  /** Without bare marks, the translation accepts exactly what the pattern matches. */
  lemma {:induction false} TranslationKeepsMeaning(pattern: string, text: string)
    requires Translatable(pattern) && BareMarks(pattern) == 0
    ensures Accepts(Translate(pattern), text) <==> Like(pattern, text)
    decreases |pattern|
  {
    if pattern == "" || pattern == "\\" {
    } else if pattern[0] == '%' {
      AcceptsAnyRun(Translate(pattern[1..]), text);
      forall k: nat | k <= |text|
        ensures Accepts(Translate(pattern[1..]), text[k..]) <==> Like(pattern[1..], text[k..])
      {
        TranslationKeepsMeaning(pattern[1..], text[k..]);
      }
    } else {
      TokenReads(pattern);
      var (atom, token, length) := TokenOf(pattern);
      var rest := pattern[length..];
      NoStrayQuantifier(rest);
      AcceptsToken(atom, token, Translate(rest), text);
      if text != "" {
        TranslationKeepsMeaning(rest, text[1..]);
      }
    }
  }

  // A bare mark always changes the meaning

  /** A text without the bare marks. */
  function Sample(pattern: string): string
    decreases |pattern|
  {
    if pattern == "" then ""
    else if pattern[0] == '\\' then if |pattern| == 1 then "" else [pattern[1]] + Sample(pattern[2..])
    else if pattern[0] == '%' || IsQuantifier(pattern[0]) then Sample(pattern[1..])
    else [if pattern[0] == '_' || pattern[0] == '.' then 'a' else pattern[0]] + Sample(pattern[1..])
  }

  function Marks(text: string): nat {
    if text == "" then 0 else Marks(text[1..]) + if IsMark(text[0]) then 1 else 0
  }

  function EscapedMarks(pattern: string): nat
    decreases |pattern|
  {
    if pattern == "" then 0
    else if pattern[0] == '\\' then
      if |pattern| == 1 then 0 else EscapedMarks(pattern[2..]) + if IsMark(pattern[1]) then 1 else 0
    else EscapedMarks(pattern[1..])
  }

  lemma {:induction false} MarksInTail(text: string, k: nat)
    requires k <= |text|
    ensures Marks(text[k..]) <= Marks(text)
    decreases k
  {
    if k > 0 {
      MarksInTail(text[1..], k - 1);
      assert text[1..][k - 1..] == text[k..];
    }
  }

  lemma {:induction false} LikeNeedsMarks(pattern: string, text: string)
    requires Like(pattern, text)
    ensures Marks(text) >= BareMarks(pattern) + EscapedMarks(pattern)
    decreases |pattern|
  {
    if pattern == "" {
    } else if pattern[0] == '\\' {
      LikeNeedsMarks(pattern[2..], text[1..]);
    } else if pattern[0] == '%' {
      var k: nat :| k <= |text| && Like(pattern[1..], text[k..]);
      LikeNeedsMarks(pattern[1..], text[k..]);
      MarksInTail(text, k);
    } else {
      LikeNeedsMarks(pattern[1..], text[1..]);
    }
  }

  lemma {:induction false} SampleMarks(pattern: string)
    ensures Marks(Sample(pattern)) == EscapedMarks(pattern)
    decreases |pattern|
  {
    if pattern == "" || pattern == "\\" {
    } else if pattern[0] == '\\' {
      SampleMarks(pattern[2..]);
      assert Sample(pattern)[1..] == Sample(pattern[2..]);
    } else {
      SampleMarks(pattern[1..]);
      if pattern[0] != '%' && !IsQuantifier(pattern[0]) {
        assert Sample(pattern)[1..] == Sample(pattern[1..]);
      }
    }
  }

  /** One token in front of a text that is accepted, or of an expression that accepts nothing. */
  lemma TokenThen(atom: Atom, token: string, c: char, rest: string, sample: string)
    requires token != "" && FirstAtom(token) == Some((atom, |token|)) && Fits(atom, c)
    requires rest == "" || !IsQuantifier(rest[0])
    ensures Accepts(rest, sample) ==> Accepts(token + rest, [c] + sample)
    ensures Dead(rest) ==> Dead(token + rest)
  {
    AcceptsToken(atom, token, rest, [c] + sample);
    assert ([c] + sample)[1..] == sample;
    forall text | Dead(rest) ensures !Accepts(token + rest, text) {
      AcceptsToken(atom, token, rest, text);
    }
  }

  lemma RepeatedThen(atom: Atom, token: string, c: char, quantifier: char, rest: string, sample: string)
    requires token != "" && FirstAtom(token) == Some((atom, |token|)) && Fits(atom, c) && IsQuantifier(quantifier)
    ensures Accepts(rest, sample) ==> Accepts(token + ([quantifier] + rest), [c] + sample)
    ensures Dead(rest) ==> Dead(token + ([quantifier] + rest))
  {
    var text := [c] + sample;
    AcceptsRepeated(atom, token, quantifier, rest, text);
    assert text[1..] == sample && text[..1] == [c] && Times(quantifier, 1) && AllFit(atom, text[..1]);
    forall text | Dead(rest) ensures !Accepts(token + ([quantifier] + rest), text) {
      AcceptsRepeated(atom, token, quantifier, rest, text);
    }
  }

  lemma AnyRunThen(rest: string, sample: string)
    ensures Accepts(rest, sample) ==> Accepts(".*" + rest, sample)
    ensures Dead(rest) ==> Dead(".*" + rest)
  {
    AcceptsAnyRun(rest, sample);
    assert sample[0..] == sample;
    forall text | Dead(rest) ensures !Accepts(".*" + rest, text) {
      AcceptsAnyRun(rest, text);
    }
  }

  lemma TokenSamples(pattern: string)
    requires pattern != "" && pattern[0] != '%' && !IsQuantifier(pattern[0])
    requires pattern[0] == '\\' ==> |pattern| > 1
    ensures
      var (atom, token, length) := TokenOf(pattern);
      && Sample(pattern) != "" && Fits(atom, Sample(pattern)[0])
      && Sample(pattern) == [Sample(pattern)[0]] + Sample(pattern[length..])
      && (Dangling(pattern) <==> Dangling(pattern[length..]))
  {
  }

  lemma QuantifierFirst(pattern: string)
    requires Translatable(pattern) && pattern != "" && IsQuantifier(pattern[0])
    ensures Translate(pattern) == [pattern[0]] + Translate(pattern[1..]) && Dead(Translate(pattern))
    ensures Sample(pattern) == Sample(pattern[1..]) && (Dangling(pattern) <==> Dangling(pattern[1..]))
  {
  }

  /** Every expression accepts the sample, or nothing at all; nothing if the pattern dangles. */
  ghost predicate SampledOrDead(pattern: string) {
    && (Accepts(Translate(pattern), Sample(pattern)) || Dead(Translate(pattern)))
    && (Dangling(pattern) ==> Dead(Translate(pattern)))
  }

  lemma RepeatedSamples(pattern: string, atom: Atom, token: string, quantifier: char, behind: string)
    requires Sample(pattern) != "" && token != "" && FirstAtom(token) == Some((atom, |token|))
    requires Fits(atom, Sample(pattern)[0]) && IsQuantifier(quantifier)
    requires Translate(pattern) == token + ([quantifier] + Translate(behind))
    requires Sample(pattern) == [Sample(pattern)[0]] + Sample(behind)
    requires Dangling(pattern) ==> Dangling(behind)
    requires SampledOrDead(behind)
    ensures SampledOrDead(pattern)
  {
    RepeatedThen(atom, token, Sample(pattern)[0], quantifier, Translate(behind), Sample(behind));
  }

  lemma SingleSamples(pattern: string)
    requires Translatable(pattern) && pattern != "" && pattern[0] != '%' && !IsQuantifier(pattern[0])
    requires pattern[0] == '\\' ==> |pattern| > 1
    requires
      var rest := pattern[TokenOf(pattern).2..];
      (rest == "" || !IsQuantifier(rest[0])) && SampledOrDead(rest)
    ensures SampledOrDead(pattern)
  {
    TokenReads(pattern);
    TokenSamples(pattern);
    var (atom, token, length) := TokenOf(pattern);
    var rest := pattern[length..];
    NoStrayQuantifier(rest);
    TokenThen(atom, token, Sample(pattern)[0], Translate(rest), Sample(rest));
  }

  lemma {:induction false} SampleOrNothing(pattern: string)
    requires Translatable(pattern)
    ensures SampledOrDead(pattern)
    decreases |pattern|
  {
    if pattern == "" || pattern == "\\" {
    } else if IsQuantifier(pattern[0]) {
      QuantifierFirst(pattern);
    } else if pattern[0] == '%' {
      SampleOrNothing(pattern[1..]);
      AnyRunThen(Translate(pattern[1..]), Sample(pattern[1..]));
    } else {
      TokenReads(pattern);
      var rest := pattern[TokenOf(pattern).2..];
      if rest != "" && IsQuantifier(rest[0]) {
        SampleOrNothing(rest[1..]);
        TokenSamples(pattern);
        QuantifierFirst(rest);
        RepeatedSamples(pattern, TokenOf(pattern).0, TokenOf(pattern).1, rest[0], rest[1..]);
      } else {
        SampleOrNothing(rest);
        SingleSamples(pattern);
      }
    }
  }

  /** A text that the pattern matches. */
  function MatchOf(pattern: string): string
    decreases |pattern|
  {
    if pattern == "" || pattern == "\\" then ""
    else if pattern[0] == '\\' then [pattern[1]] + MatchOf(pattern[2..])
    else if pattern[0] == '%' then MatchOf(pattern[1..])
    else [pattern[0]] + MatchOf(pattern[1..])
  }

  /** A pattern matches something exactly if it does not dangle. */
  lemma {:induction false} MatchesSomething(pattern: string, text: string)
    ensures !Dangling(pattern) ==> Like(pattern, MatchOf(pattern))
    ensures Dangling(pattern) ==> !Like(pattern, text)
    decreases |pattern|
  {
    if pattern == "" || pattern == "\\" {
    } else if pattern[0] == '\\' {
      MatchesSomething(pattern[2..], if text != "" then text[1..] else "");
      assert MatchOf(pattern)[1..] == MatchOf(pattern[2..]);
    } else if pattern[0] == '%' {
      forall k: nat | k <= |text| ensures Dangling(pattern) ==> !Like(pattern[1..], text[k..]) {
        MatchesSomething(pattern[1..], text[k..]);
      }
      MatchesSomething(pattern[1..], "");
      assert MatchOf(pattern)[0..] == MatchOf(pattern[1..]);
    } else {
      MatchesSomething(pattern[1..], if text != "" then text[1..] else "");
      assert MatchOf(pattern)[1..] == MatchOf(pattern[1..]);
    }
  }

  lemma {:induction false} BlankMeansItself(pattern: string)
    requires AllSpace(pattern)
    ensures Like(pattern, pattern) && !Dangling(pattern)
    decreases |pattern|
  {
    if pattern != "" {
      BlankMeansItself(pattern[1..]);
    }
  }

  ghost predicate SameMeaning(pattern: string) {
    forall text :: Accepts(RegexOf(pattern), text) <==> Like(pattern, text)
  }

  lemma BareMarksChangeMeaning(pattern: string)
    requires Translatable(pattern) && !Blank(pattern) && !Dangling(pattern) && BareMarks(pattern) > 0
    ensures !SameMeaning(pattern)
  {
    SampleOrNothing(pattern);
    SampleMarks(pattern);
    MatchesSomething(pattern, "");
    if Like(pattern, Sample(pattern)) {
      LikeNeedsMarks(pattern, Sample(pattern));
    }
  }

  /** A dangling pattern matches nothing, and its translation accepts nothing. */
  lemma DanglingKeepsMeaning(pattern: string)
    requires Translatable(pattern) && !Blank(pattern) && Dangling(pattern)
    ensures SameMeaning(pattern)
  {
    SampleOrNothing(pattern);
    forall text ensures !Like(pattern, text) {
      MatchesSomething(pattern, text);
    }
  }

  /**
    The conversion keeps the meaning exactly when the pattern dangles, or has no bare mark and is not
    blank (or is empty).
  */
  lemma ConversionKeepsMeaningExactly(pattern: string)
    requires Translatable(pattern)
    ensures SameMeaning(pattern)
            <==> Dangling(pattern) || (BareMarks(pattern) == 0 && (pattern == "" || !Blank(pattern)))
  {
    TrimEmpty(pattern);
    if pattern == "" {
    } else if Blank(pattern) {
      BlankMeansItself(pattern);
      assert !Accepts("", pattern);
    } else if Dangling(pattern) {
      DanglingKeepsMeaning(pattern);
    } else if BareMarks(pattern) == 0 {
      forall text ensures Accepts(RegexOf(pattern), text) <==> Like(pattern, text) {
        TranslationKeepsMeaning(pattern, text);
      }
    } else {
      BareMarksChangeMeaning(pattern);
    }
  }
}
