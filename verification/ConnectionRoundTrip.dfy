/** What parsing means for every connection string, and when a printed configuration is read back. */
module ConnectionRoundTrip {
  import opened OdbcTypes
  import opened TextUtil
  import opened DecimalText
  import opened Segments
  import opened ConfigurationModel
  import opened ConnectionStrings

  type Directories = string -> bool

  // The leftmost accepted attribute wins

  function Lookup(settings: Settings, key: string): Option<Value> {
    if key in settings then Some(settings[key]) else None
  }

  /** The value a segment gives a key, if it names that key and its value is accepted. */
  function Gives(accept: Acceptor, segment: string, key: string): Option<Value> {
    match SidesOf(segment)
    case None => None
    case Some(Sides(left, right)) =>
      if ToLower(Trim(left)) == key then accept(key, WithoutBraces(Trim(right))) else None
  }

  /** The leftmost segment that gives the key a value. */
  function Leftmost(accept: Acceptor, segments: seq<string>, key: string): Option<Value> {
    if segments == [] then None
    else if Gives(accept, segments[0], key).Some? then Gives(accept, segments[0], key)
    else Leftmost(accept, segments[1..], key)
  }

  lemma StepGives(accept: Acceptor, segment: string, settings: Settings, key: string)
    ensures Lookup(Step(accept, segment, settings), key)
         == if Gives(accept, segment, key).Some? then Gives(accept, segment, key)
            else Lookup(settings, key)
  {
  }

  lemma {:induction false} LeftmostAcceptedWins(
      accept: Acceptor, segments: seq<string>, settings: Settings, key: string)
    ensures Lookup(Fold(accept, segments, settings), key)
         == if Leftmost(accept, segments, key).Some? then Leftmost(accept, segments, key)
            else Lookup(settings, key)
  {
    if segments != [] {
      LeftmostAcceptedWins(accept, segments[1..], settings, key);
      StepGives(accept, segments[0], Fold(accept, segments[1..], settings), key);
    }
  }

  // The attribute list

  /** Every attribute followed by a NUL, and a NUL at the end of the list. */
  function ListForm(pairs: seq<string>): string {
    if pairs == [] then [NUL] else pairs[0] + [NUL] + ListForm(pairs[1..])
  }

  /** An attribute as it can stand in a list: not empty, without the delimiters. */
  predicate Attribute(pair: string) {
    pair != "" && Free(pair, NUL) && Free(pair, ';')
  }

  predicate Attributes(pairs: seq<string>) {
    forall i | 0 <= i < |pairs| :: Attribute(pairs[i])
  }

  lemma {:induction false} ListIsJoined(pairs: seq<string>)
    requires pairs != []
    ensures ListForm(pairs) == Join(pairs, NUL) + [NUL, NUL]
  {
    if |pairs| == 1 {
      assert pairs[1..] == [];
      assert pairs[0] + [NUL] + [NUL] == pairs[0] + [NUL, NUL];
    } else {
      ListIsJoined(pairs[1..]);
      assert pairs[0] + [NUL] + (Join(pairs[1..], NUL) + [NUL, NUL])
          == pairs[0] + [NUL] + Join(pairs[1..], NUL) + [NUL, NUL];
    }
  }

  lemma {:induction false} JoinedEnds(pairs: seq<string>, delimiter: char)
    requires pairs != [] && Attributes(pairs)
    ensures var s := Join(pairs, delimiter); s != "" && s[|s| - 1] != NUL
  {
    if |pairs| > 1 {
      JoinedEnds(pairs[1..], delimiter);
    } else {
      assert Attribute(pairs[0]);
    }
  }

  lemma {:induction false} ListLength(head: string, tail: string)
    requires Free(head, NUL) && tail != ""
    ensures FirstDoubleNul(head + [NUL] + tail)
         == if tail[0] == NUL then |head| else |head| + 1 + FirstDoubleNul(tail)
  {
    var s := head + [NUL] + tail;
    if head == "" {
      assert s[1..] == tail;
    } else {
      ListLength(head[1..], tail);
      assert s[1..] == head[1..] + [NUL] + tail;
    }
  }

  lemma {:induction false} ListEnds(pairs: seq<string>)
    requires pairs != [] && Attributes(pairs)
    ensures ListForm(pairs) != "" && ListForm(pairs)[0] != NUL
    ensures FirstDoubleNul(ListForm(pairs)) == |Join(pairs, NUL)|
  {
    assert Attribute(pairs[0]);
    if |pairs| > 1 {
      ListEnds(pairs[1..]);
    } else {
      assert ListForm(pairs[1..]) == [NUL];
    }
    ListLength(pairs[0], ListForm(pairs[1..]));
  }

  lemma ListParses(accept: Acceptor, pairs: seq<string>, settings: Settings)
    requires pairs != [] && Attributes(pairs)
    ensures Parsed(accept, Join(pairs, NUL) + [NUL], NUL, settings) == Fold(accept, pairs, settings)
  {
    var joined := Join(pairs, NUL);
    JoinedEnds(pairs, NUL);
    assert (joined + [NUL])[..|joined|] == joined;
    assert WithoutNuls(joined + [NUL]) == joined;
    JoinSplits(pairs, NUL);
  }

  lemma TextParses(accept: Acceptor, pairs: seq<string>, settings: Settings)
    requires pairs != [] && Attributes(pairs)
    ensures Parsed(accept, Join(pairs, ';'), ';', settings) == Fold(accept, pairs, settings)
  {
    JoinedEnds(pairs, ';');
    JoinSplits(pairs, ';');
  }

  /** The part of the list that is parsed. */
  lemma ListTaken(pairs: seq<string>)
    requires pairs != [] && Attributes(pairs)
    ensures FirstDoubleNul(ListForm(pairs)) + 1 < |ListForm(pairs)|
    ensures ListForm(pairs)[..FirstDoubleNul(ListForm(pairs)) + 1] == Join(pairs, NUL) + [NUL]
  {
    ListEnds(pairs);
    ListIsJoined(pairs);
  }

  /** The NUL-separated list of attributes gives the configuration that the ';' form gives. */
  lemma ListFormAgrees(accept: Acceptor, pairs: seq<string>, settings: Settings)
    requires pairs != [] && Attributes(pairs)
    ensures FirstDoubleNul(ListForm(pairs)) + 1 < |ListForm(pairs)|
    ensures Parsed(accept, ListForm(pairs)[..FirstDoubleNul(ListForm(pairs)) + 1], NUL, settings)
         == Parsed(accept, Join(pairs, ';'), ';', settings)
  {
    ListTaken(pairs);
    ListParses(accept, pairs, settings);
    TextParses(accept, pairs, settings);
  }

  // Keys

  lemma TextKeyIsLower(key: string)
    requires key in TEXT_KEYS
    ensures key != "" && AllLower(key)
  {
  }

  lemma NumberKeyIsLower(key: string)
    requires key in POSITIVE_KEYS + COUNT_KEYS
    ensures key != "" && AllLower(key)
  {
  }

  /** A known key is read back as itself, and holds neither delimiter. */
  lemma KnownKeyStands(key: string)
    requires KindOf(key).Some?
    ensures key != "" && Free(key, ';') && Free(key, '=') && ToLower(key) == key && Trim(key) == key
  {
    if key in TEXT_KEYS {
      TextKeyIsLower(key);
    } else if key in POSITIVE_KEYS + COUNT_KEYS {
      NumberKeyIsLower(key);
    }
    LowerKeyStands(key);
  }

  lemma LowerKeyStands(key: string)
    requires AllLower(key)
    ensures Free(key, ';') && Free(key, '=') && ToLower(key) == key && Trim(key) == key
  {
  }

  // Values

  /** A text the parser cannot mistake for anything else. */
  predicate Unreserved(text: string) {
    Free(text, ';') && Free(text, '=')
  }

  predicate Wrapped(text: string) {
    |text| >= 2 && text[0] == '{' && text[|text| - 1] == '}'
  }

  /** A space makes the printer put braces around the text; without one its edges must be plain. */
  predicate Guarded(text: string) {
    ' ' in text || text == "" || (!IsSpace(text[0]) && !IsSpace(text[|text| - 1]) && !Wrapped(text))
  }

  /** Texts the connection string can carry. */
  predicate Carried(text: string) {
    Unreserved(text) && Guarded(text)
  }

  predicate Survives(isDirectory: Directories, key: string, value: Value)
    requires Fits(key, value)
  {
    match KindOf(key).value
    case TextKey => Carried(value.text)
    case PathKey => value.text == "" || (Carried(value.text) && isDirectory(value.text))
    case PositiveKey => value.n >= 1
    case CountKey => value.n >= 0
    case AuthKey => true
    case LevelKey => value.level != Unknown
  }

  function ReadBack(text: string): string {
    WithoutBraces(Trim(Quoted(text)))
  }

  /** A text comes back exactly when it holds a space, or has no white space and no braces around it. */
  lemma TextReadsBack(text: string)
    ensures ReadBack(text) == text <==> Guarded(text)
  {
    TrimIdentity(Quoted(text));
    TrimShortens(text);
  }

  lemma SignedIsPlain(n: int)
    ensures Unreserved(Signed(n)) && Signed(n) != "" && ReadBack(Signed(n)) == Signed(n)
    ensures AllDigits(Signed(n)) <==> n >= 0
  {
  }

  lemma NumberReadsBack(n: int, least: nat)
    requires IsInt32(n) && least <= 1
    ensures NumberFrom(Signed(n), least) == Some(n) <==> n >= least
  {
    SignedIsPlain(n);
    if n >= 0 {
      DecimalReadsBack(n);
      assert Power(10) == 1_00000_00000 by { PowerOfTen(); }
      DecimalLength(n, 10);
    }
  }

  lemma PowerOfTen()
    ensures Power(10) == 1_00000_00000
  {
  }

  lemma AuthNameIsPlain(a: AuthType)
    ensures AuthName(a) != "" && Unreserved(AuthName(a)) && ReadBack(AuthName(a)) == AuthName(a)
  {
  }

  lemma AuthReadsBack(a: AuthType)
    ensures AuthFrom(AuthName(a)) == Some(a)
  {
  }

  lemma LevelReadsBack(l: LogLevel)
    ensures LevelFrom(LevelName(l)) == (if l == Unknown then None else Some(l)) && Unreserved(LevelName(l))
    ensures LevelName(l) != "" && ReadBack(LevelName(l)) == LevelName(l)
  {
  }

  // One entry

  lemma TextSurvives(isDirectory: Directories, key: string, text: string)
    requires Fits(key, Text(text)) && text != ""
    ensures Unreserved(text) && Stored(isDirectory, key, ReadBack(text)) == Some(Text(text))
            <==> Survives(isDirectory, key, Text(text))
  {
    TextReadsBack(text);
  }

  lemma NumberSurvives(isDirectory: Directories, key: string, n: int)
    requires Fits(key, Number(n))
    ensures Stored(isDirectory, key, ReadBack(Signed(n))) == Some(Number(n))
            <==> Survives(isDirectory, key, Number(n))
  {
    SignedIsPlain(n);
    NumberReadsBack(n, 0);
    NumberReadsBack(n, 1);
  }

  /** An entry whose text is unreserved comes back exactly when its value survives. */
  lemma EntrySurvives(isDirectory: Directories, key: string, value: Value)
    requires Fits(key, value) && value != Text("")
    ensures TextOf(value) != ""
    ensures Unreserved(TextOf(value)) && Stored(isDirectory, key, ReadBack(TextOf(value))) == Some(value)
            <==> Survives(isDirectory, key, value)
  {
    match value
    case Text(s) => TextSurvives(isDirectory, key, s);
    case Number(n) =>
      SignedIsPlain(n);
      NumberSurvives(isDirectory, key, n);
    case Auth(a) =>
      AuthNameIsPlain(a);
      AuthReadsBack(a);
    case Level(l) => LevelReadsBack(l);
  }

  lemma EntrySides(key: string, text: string)
    requires key != "" && Free(text, '=')
    ensures SidesOf(key + "=" + Quoted(text)) == Some(Sides(key, Quoted(text)))
  {
    LastIndexBefore(key, '=', Quoted(text));
    var s := key + "=" + Quoted(text);
    assert s[..|key|] == key && s[|key| + 1..] == Quoted(text);
  }

  lemma EntryHandled(accept: Acceptor, key: string, text: string, settings: Settings)
    requires KindOf(key).Some? && Free(text, '=')
    ensures Step(accept, key + "=" + Quoted(text), settings)
         == match accept(key, ReadBack(text)) {
              case None => settings
              case Some(v) => settings[key := v]
            }
  {
    KnownKeyStands(key);
    EntrySides(key, text);
  }

  // The whole text

  predicate AllUnreserved(order: seq<string>, settings: Settings)
    requires forall i | 0 <= i < |order| :: order[i] in settings
  {
    forall i | 0 <= i < |order| :: Unreserved(TextOf(settings[order[i]]))
  }

  /** What a printed entry gives when it is read. */
  function Returned(accept: Acceptor, settings: Settings, key: string): Option<Value> {
    if key !in settings || TextOf(settings[key]) == "" then None
    else accept(key, ReadBack(TextOf(settings[key])))
  }

  function Reread(accept: Acceptor, text: string): Settings {
    Fold(accept, Split(text, ';'), map[])
  }

  lemma PrintedFirst(accept: Acceptor, key: string, text: string, rest: string)
    requires KindOf(key).Some? && text != "" && Unreserved(text)
    ensures Reread(accept, Entry(key, text) + rest)
         == Step(accept, key + "=" + Quoted(text), Reread(accept, rest))
  {
    KnownKeyStands(key);
    var segment := key + "=" + Quoted(text);
    assert Entry(key, text) + rest == segment + [';'] + rest;
    SplitFirst(segment, ';', rest);
  }

  /** Printed and read, every key of the order has what its own entry gives. */
  lemma {:induction false} PrintedRereads(
      accept: Acceptor, order: seq<string>, settings: Settings, key: string)
    requires WellTyped(settings) && Ascending(order, settings) && AllUnreserved(order, settings)
    ensures Lookup(Reread(accept, Printed(order, settings)), key)
         == if key in order then Returned(accept, settings, key) else None
  {
    if order == [] {
    } else {
      var rest := order[1..];
      PrintedRereads(accept, rest, settings, key);
      if key in rest {
        var i :| 0 <= i < |rest| && rest[i] == key;
        assert Less(order[0], order[i + 1]);
        NotLessThanItself(key);
      }
      FirstRereads(accept, order[0], TextOf(settings[order[0]]), Printed(rest, settings), key);
    }
  }

  lemma FirstRereads(accept: Acceptor, first: string, text: string, rest: string, key: string)
    requires KindOf(first).Some? && Unreserved(text)
    ensures Lookup(Reread(accept, Entry(first, text) + rest), key)
         == if key == first && text != "" && accept(key, ReadBack(text)).Some?
            then accept(key, ReadBack(text))
            else Lookup(Reread(accept, rest), key)
  {
    if text == "" {
      assert Entry(first, text) + rest == rest;
    } else {
      PrintedFirst(accept, first, text, rest);
      EntryHandled(accept, first, text, Reread(accept, rest));
    }
  }

  // Values that were read

  lemma TrimFree(s: string, c: char)
    requires Free(s, c)
    ensures Free(WithoutBraces(Trim(s)), c)
  {
    RtrimDrops(s);
    var right := Rtrim(s);
    assert Free(right, c);
    LtrimDrops(right);
    assert Free(right[|right| - |Trim(s)|..], c);
  }

  /** Texts are stored as they are, and nothing else has a delimiter in its text. */
  ghost predicate Sane(accept: Acceptor) {
    forall key, text ::
      accept(key, text).Some? ==>
        accept(key, text) == Some(Text(text))
        || (!accept(key, text).value.Text? && Unreserved(TextOf(accept(key, text).value)))
  }

  lemma OtherValuesAreUnreserved(value: Value)
    requires !value.Text?
    ensures Unreserved(TextOf(value))
  {
  }

  lemma StoringIsSane(isDirectory: Directories)
    ensures Sane(Accepting(isDirectory))
  {
    var accept := Accepting(isDirectory);
    forall key, text | accept(key, text).Some?
      ensures accept(key, text) == Some(Text(text))
              || (!accept(key, text).value.Text? && Unreserved(TextOf(accept(key, text).value)))
    {
      if !accept(key, text).value.Text? {
        OtherValuesAreUnreserved(accept(key, text).value);
      }
    }
  }

  /** No value that was read holds a delimiter. */
  lemma GivenIsUnreserved(accept: Acceptor, segment: string, key: string)
    requires Sane(accept) && Free(segment, ';') && Gives(accept, segment, key).Some?
    ensures Unreserved(TextOf(Gives(accept, segment, key).value))
  {
    var right := SidesOf(segment).value.right;
    NoneAfterLast(segment, '=');
    TrimFree(right, ';');
    TrimFree(right, '=');
  }

  lemma {:induction false} LeftmostIsUnreserved(accept: Acceptor, segments: seq<string>, key: string)
    requires Sane(accept) && forall i | 0 <= i < |segments| :: Free(segments[i], ';')
    requires Leftmost(accept, segments, key).Some?
    ensures Unreserved(TextOf(Leftmost(accept, segments, key).value))
  {
    if Gives(accept, segments[0], key).Some? {
      GivenIsUnreserved(accept, segments[0], key);
    } else {
      LeftmostIsUnreserved(accept, segments[1..], key);
    }
  }

  lemma RereadIsUnreserved(accept: Acceptor, text: string, key: string)
    requires Sane(accept) && key in Reread(accept, text)
    ensures Unreserved(TextOf(Reread(accept, text)[key]))
  {
    var segments := Split(text, ';');
    LeftmostAcceptedWins(accept, segments, map[], key);
    SplitJoins(text, ';');
    LeftmostIsUnreserved(accept, segments, key);
  }

  // The round trip

  function Filled(settings: Settings): Settings {
    map key | key in settings && settings[key] != Text("") :: settings[key]
  }

  lemma EntryOfRoundTrip(isDirectory: Directories, order: seq<string>, settings: Settings, key: string)
    requires WellTyped(settings) && Lists(order, settings) && key in settings
    requires Reread(Accepting(isDirectory), Printed(order, settings)) == Filled(settings)
    ensures Unreserved(TextOf(settings[key]))
  {
    if settings[key] != Text("") {
      assert key in Filled(settings);
      StoringIsSane(isDirectory);
      RereadIsUnreserved(Accepting(isDirectory), Printed(order, settings), key);
    }
  }

  lemma RereadAgrees(isDirectory: Directories, order: seq<string>, settings: Settings, key: string)
    requires WellTyped(settings) && Lists(order, settings) && AllUnreserved(order, settings)
    ensures Lookup(Reread(Accepting(isDirectory), Printed(order, settings)), key) == Lookup(Filled(settings), key)
            <==> (key in settings ==> Survives(isDirectory, key, settings[key]))
  {
    PrintedRereads(Accepting(isDirectory), order, settings, key);
    if key in settings {
      var i :| 0 <= i < |order| && order[i] == key;
      assert Unreserved(TextOf(settings[key]));
      if settings[key] == Text("") {
        assert Carried("");
      } else {
        EntrySurvives(isDirectory, key, settings[key]);
      }
    }
  }

  lemma SurvivorsAreUnreserved(isDirectory: Directories, key: string, value: Value)
    requires Fits(key, value) && Survives(isDirectory, key, value)
    ensures Unreserved(TextOf(value))
  {
  }

  lemma PrintedComesBack(isDirectory: Directories, order: seq<string>, settings: Settings)
    requires WellTyped(settings) && Lists(order, settings)
    requires forall key | key in settings :: Survives(isDirectory, key, settings[key])
    ensures Reread(Accepting(isDirectory), Printed(order, settings)) == Filled(settings)
  {
    forall i | 0 <= i < |order| ensures Unreserved(TextOf(settings[order[i]])) {
      SurvivorsAreUnreserved(isDirectory, order[i], settings[order[i]]);
    }
    var back := Reread(Accepting(isDirectory), Printed(order, settings));
    forall key ensures Lookup(back, key) == Lookup(Filled(settings), key) {
      RereadAgrees(isDirectory, order, settings, key);
    }
    SameLookups(back, Filled(settings));
  }

  lemma OnlySurvivorsComeBack(isDirectory: Directories, order: seq<string>, settings: Settings, key: string)
    requires WellTyped(settings) && Lists(order, settings) && key in settings
    requires Reread(Accepting(isDirectory), Printed(order, settings)) == Filled(settings)
    ensures Survives(isDirectory, key, settings[key])
  {
    forall i | 0 <= i < |order| ensures Unreserved(TextOf(settings[order[i]])) {
      EntryOfRoundTrip(isDirectory, order, settings, order[i]);
    }
    RereadAgrees(isDirectory, order, settings, key);
  }

  lemma {:induction false} PrintedEnds(order: seq<string>, settings: Settings)
    requires Ascending(order, settings)
    ensures var s := Printed(order, settings); s == "" || s[|s| - 1] == ';'
  {
    if order != [] {
      PrintedEnds(order[1..], settings);
    }
  }

  /**
    A printed configuration, parsed into a fresh one, is restored without its empty texts exactly when
    each of its values survives on its own.
  */
  lemma RoundTripExactly(isDirectory: Directories, order: seq<string>, settings: Settings)
    requires WellTyped(settings) && Lists(order, settings)
    ensures Parsed(Accepting(isDirectory), Printed(order, settings), ';', map[]) == Filled(settings)
            <==> forall key | key in settings :: Survives(isDirectory, key, settings[key])
  {
    PrintedEnds(order, settings);
    assert Parsed(Accepting(isDirectory), Printed(order, settings), ';', map[])
        == Reread(Accepting(isDirectory), Printed(order, settings));
    if Reread(Accepting(isDirectory), Printed(order, settings)) == Filled(settings) {
      forall key | key in settings ensures Survives(isDirectory, key, settings[key]) {
        OnlySurvivorsComeBack(isDirectory, order, settings, key);
      }
    }
    if forall key | key in settings :: Survives(isDirectory, key, settings[key]) {
      PrintedComesBack(isDirectory, order, settings);
    }
  }

  lemma SameLookups(a: Settings, b: Settings)
    requires forall key :: Lookup(a, key) == Lookup(b, key)
    ensures a == b
  {
    forall key ensures key in a <==> key in b {
      assert Lookup(a, key) == Lookup(b, key);
    }
    forall key | key in a ensures a[key] == b[key] {
      assert Lookup(a, key) == Lookup(b, key);
    }
  }

  /** A password with an equals sign in it is lost. */
  lemma EqualsSignIsLost(isDirectory: Directories)
    ensures
      var settings: Settings := map["pwd" := Text("a=b")];
      Lists(["pwd"], settings)
      && Parsed(Accepting(isDirectory), Printed(["pwd"], settings), ';', map[]) != Filled(settings)
  {
    var settings: Settings := map["pwd" := Text("a=b")];
    assert "pwd" in TEXT_KEYS && "a=b"[1] == '=';
    RoundTripExactly(isDirectory, ["pwd"], settings);
    assert !Survives(isDirectory, "pwd", settings["pwd"]);
  }
}
