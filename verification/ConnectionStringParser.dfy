/** The parser of connection strings and of attribute lists: it reads from the right. */
module ConnectionStrings {
  import opened OdbcTypes
  import opened TextUtil
  import opened DecimalText
  import opened Segments
  import opened ConfigurationModel

  const NUL := 0 as char

  // The meaning of a text

  function WithoutBraces(value: string): string {
    if |value| >= 2 && value[0] == '{' && value[|value| - 1] == '}' then value[1..|value| - 1] else value
  }

  datatype Sides = Sides(left: string, right: string)

  /** The two sides of a segment: the last equals sign parts them, and it must not come first. */
  function SidesOf(segment: string): Option<Sides> {
    match LastIndex(segment, '=')
    case None => None
    case Some(e) => if e == 0 then None else Some(Sides(segment[..e], segment[e + 1..]))
  }

  function Handle(accept: Acceptor, settings: Settings, key: string, value: string): Settings {
    match accept(ToLower(key), value)
    case None => settings
    case Some(v) => settings[ToLower(key) := v]
  }

  /** Both sides are trimmed, and braces around the value go. */
  function HandleBoth(accept: Acceptor, settings: Settings, left: string, right: string): Settings {
    Handle(accept, settings, Trim(left), WithoutBraces(Trim(right)))
  }

  function Step(accept: Acceptor, segment: string, settings: Settings): Settings {
    match SidesOf(segment)
    case None => settings
    case Some(Sides(left, right)) => HandleBoth(accept, settings, left, right)
  }

  /** The segments take effect from the last to the first. */
  function Fold(accept: Acceptor, segments: seq<string>, settings: Settings): Settings {
    if segments == [] then settings
    else Step(accept, segments[0], Fold(accept, segments[1..], settings))
  }

  function WithoutNuls(s: string): string {
    if s != "" && s[|s| - 1] == NUL then WithoutNuls(s[..|s| - 1]) else s
  }

  function Parsed(accept: Acceptor, text: string, delimiter: char, settings: Settings): Settings {
    Fold(accept, Split(WithoutNuls(text), delimiter), settings)
  }

  /** The place of the first NUL with a NUL behind it: the end of an attribute list. */
  function FirstDoubleNul(list: string): (n: nat)
    ensures n <= |list|
  {
    if |list| < 2 || (list[0] == NUL && list[1] == NUL) then 0 else 1 + FirstDoubleNul(list[1..])
  }

  lemma {:induction false} FoldLast(
      accept: Acceptor, segments: seq<string>, last: string, settings: Settings)
    ensures Fold(accept, segments + [last], settings)
         == Fold(accept, segments, Step(accept, last, settings))
  {
    if segments == [] {
      assert ([last])[1..] == [];
    } else {
      FoldLast(accept, segments[1..], last, settings);
      assert (segments + [last])[1..] == segments[1..] + [last];
    }
  }

  /** Where the segment after the last delimiter begins. */
  function LastBegin(s: string, delimiter: char): (begin: nat)
    ensures begin <= |s|
  {
    match LastIndex(s, delimiter)
    case None => 0
    case Some(i) => i + 1
  }

  lemma LastSegment(accept: Acceptor, s: string, delimiter: char, settings: Settings)
    ensures
      var begin := LastBegin(s, delimiter);
      Fold(accept, Split(s, delimiter), settings)
      == if begin == 0 then Step(accept, s, settings)
         else Fold(accept, Split(s[..begin - 1], delimiter), Step(accept, s[begin..], settings))
  {
    var begin := LastBegin(s, delimiter);
    NoneAfterLast(s, delimiter);
    if begin == 0 {
      SplitWhole(s, delimiter);
      FoldLast(accept, [], s, settings);
      assert [s] == [] + [s];
    } else {
      assert s == s[..begin - 1] + [delimiter] + s[begin..];
      SplitLast(s[..begin - 1], delimiter, s[begin..]);
      FoldLast(accept, Split(s[..begin - 1], delimiter), s[begin..], settings);
    }
  }

  lemma SidesAt(s: string, e: nat, left: string, right: string)
    requires 0 < e < |s| && LastIndex(s, '=') == Some(e) && s[..e] == left && s[e + 1..] == right
    ensures SidesOf(s) == Some(Sides(left, right))
  {
  }

  lemma SidesOfTail(s: string, begin: nat, e: nat)
    requires begin < e < |s| && LastIndex(s[begin..], '=') == Some(e - begin)
    ensures SidesOf(s[begin..]) == Some(Sides(s[begin..e], s[e + 1..]))
  {
    SlicesOfTail(s, begin, e);
    SidesAt(s[begin..], e - begin, s[begin..e], s[e + 1..]);
  }

  /** The equals sign is searched in the whole remaining text; that agrees with its segment's own. */
  lemma LastEquals(s: string, begin: nat, e: nat)
    requires begin < e < |s| && LastIndex(s, '=') == Some(e)
    ensures SidesOf(s[begin..]) == Some(Sides(s[begin..e], s[e + 1..]))
  {
    LastIndexOfTail(s, '=', begin, e);
    SidesOfTail(s, begin, e);
  }

  lemma NoEquals(s: string, begin: nat)
    requires begin <= |s| && (LastIndex(s, '=').Some? ==> LastIndex(s, '=').value <= begin)
    ensures SidesOf(s[begin..]) == None
  {
    if LastIndex(s, '=') == Some(begin) {
      LastIndexOfTail(s, '=', begin, begin);
    } else {
      NoIndexInTail(s, '=', begin);
    }
  }

  lemma SlicesOfTail(s: string, begin: nat, e: nat)
    requires begin <= e < |s|
    ensures s[begin..][..e - begin] == s[begin..e] && s[begin..][e - begin + 1..] == s[e + 1..]
  {
  }

  class ConnectionStringParser {
    const cfg: Configuration
    const isDirectory: string -> bool

    constructor (cfg: Configuration, isDirectory: string -> bool)
      ensures this.cfg == cfg && this.isDirectory == isDirectory
    {
      this.cfg := cfg;
      this.isDirectory := isDirectory;
    }

    /** The checks every numeric attribute goes through. */
    method ReadNumber(value: string, least: nat) returns (number: Option<int>)
      ensures number == NumberFrom(value, least)
    {
      if value == "" {
        return None;
      }
      if !AllDigits(value) {
        return None;
      }
      if |value| >= STRING_OBJECT_SIZE {
        return None;
      }
      var numValue := NumberOf(value);
      if numValue < least || numValue > UINT32_MAX {
        return None;
      }
      return Some(WrapToInt32(numValue));
    }

    method HandleAttributePair(key: string, value: string)
      modifies cfg
      ensures cfg.settings == Handle(Accepting(isDirectory), old(cfg.settings), key, value)
    {
      var lKey := ToLower(key);
      match KindOf(lKey)
      case None =>
      case Some(TextKey) =>
        cfg.Set(lKey, Text(value));
      case Some(PathKey) =>
        cfg.SetLogPath(isDirectory, value);
      case Some(PositiveKey) =>
        var number := ReadNumber(value, 1);
        if number.Some? {
          cfg.Set(lKey, Number(number.value));
        }
      case Some(CountKey) =>
        var number := ReadNumber(value, 0);
        if number.Some? {
          cfg.Set(lKey, Number(number.value));
        }
      case Some(AuthKey) =>
        var authType := AuthFrom(value);
        if authType.Some? {
          cfg.Set(lKey, Auth(authType.value));
        }
      case Some(LevelKey) =>
        var level := LevelFrom(value);
        if level.Some? {
          cfg.Set(lKey, Level(level.value));
        }
    }

    /** Trims both sides, takes the braces off the value, and hands the pair on. */
    method HandleSides(left: string, right: string)
      modifies cfg
      ensures cfg.settings == HandleBoth(Accepting(isDirectory), old(cfg.settings), left, right)
    {
      var value := TakeBracesOff(Trim(right));
      HandleAttributePair(Trim(left), value);
    }

    method TakeBracesOff(text: string) returns (value: string)
      ensures value == WithoutBraces(text)
    {
      value := text;
      if value != "" && value[0] == '{' && value[|value| - 1] == '}' {
        value := value[1..|value| - 1];
      }
    }

    /** Searches the equals sign in the whole remaining text, and finds the sides of its tail. */
    method FindSides(connectStr: string, begin: nat) returns (sides: Option<Sides>)
      requires begin <= |connectStr|
      ensures sides == SidesOf(connectStr[begin..])
    {
      var equals := LastIndex(connectStr, '=');
      if equals.Some? && begin < equals.value {
        LastEquals(connectStr, begin, equals.value);
        return Some(Sides(connectStr[begin..equals.value], connectStr[equals.value + 1..]));
      }
      NoEquals(connectStr, begin);
      return None;
    }

    /** One round: the tail of the text, from begin on, takes effect. */
    method HandleTail(connectStr: string, begin: nat)
      requires begin <= |connectStr|
      modifies cfg
      ensures cfg.settings == Step(Accepting(isDirectory), connectStr[begin..], old(cfg.settings))
    {
      var sides := FindSides(connectStr, begin);
      if sides.Some? {
        HandleSides(sides.value.left, sides.value.right);
      }
    }

    /** Takes the tail after the last delimiter, reads its pair, and erases it, until nothing is left. */
    method ParseConnectionString(str: string, delimiter: char)
      modifies cfg
      ensures cfg.settings == Parsed(Accepting(isDirectory), str, delimiter, old(cfg.settings))
    {
      var connectStr := str;
      while connectStr != "" && connectStr[|connectStr| - 1] == NUL
        invariant WithoutNuls(connectStr) == WithoutNuls(str)
        decreases |connectStr|
      {
        connectStr := connectStr[..|connectStr| - 1];
      }
      ghost var goal := Parsed(Accepting(isDirectory), str, delimiter, cfg.settings);
      while connectStr != ""
        invariant Fold(Accepting(isDirectory), Split(connectStr, delimiter), cfg.settings) == goal
        decreases |connectStr|
      {
        var begin := LastBegin(connectStr, delimiter);
        LastSegment(Accepting(isDirectory), connectStr, delimiter, cfg.settings);
        HandleTail(connectStr, begin);
        if begin == 0 {
          break;
        }
        connectStr := connectStr[..begin - 1];
      }
    }

    /** The list goes on to two NULs; the first of them still belongs to it. */
    method ParseConfigAttributes(str: string)
      requires FirstDoubleNul(str) + 1 < |str|
      modifies cfg
      ensures cfg.settings
           == Parsed(Accepting(isDirectory), str[..FirstDoubleNul(str) + 1], NUL, old(cfg.settings))
    {
      var len: nat := 0;
      while str[len] != NUL || str[len + 1] != NUL
        invariant len + 1 < |str| && len + FirstDoubleNul(str[len..]) == FirstDoubleNul(str)
        decreases |str| - len
      {
        assert str[len..][1..] == str[len + 1..];
        len := len + 1;
      }
      len := len + 1;
      ParseConnectionString(str[..len], NUL);
    }
  }
}
