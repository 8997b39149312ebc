/**
  The connection settings and their printed form.

  Every field of the configuration that can be set is an entry of a map under the name the connection
  string gives it. Whether a directory exists is a parameter.
*/
module ConfigurationModel {
  import opened OdbcTypes
  import opened TextUtil
  import opened DecimalText

  datatype AuthType = AwsProfile | Iam | Aad | Okta

  datatype LogLevel = Off | ErrorLevel | WarningLevel | InfoLevel | DebugLevel | Unknown

  datatype Value = Text(text: string) | Number(n: int) | Auth(auth: AuthType) | Level(level: LogLevel)

  datatype Kind = TextKey | PathKey | PositiveKey | CountKey | AuthKey | LevelKey

  type Settings = map<string, Value>

  const UINT32_MAX := 0xFFFF_FFFF
  /** The size of a string object, with which the length of a number is compared. */
  const STRING_OBJECT_SIZE := 32

  const TEXT_KEYS: set<string> := {
    "dsn", "driver", "uid", "pwd", "accesskeyid", "secretkey", "sessiontoken", "profilename",
    "endpointoverride", "region", "idphost", "idpusername", "idppassword", "idparn",
    "oktaapplicationid", "rolearn", "aadapplicationid", "aadclientsecret", "aadtenant" }
  const POSITIVE_KEYS: set<string> := {"requesttimeout", "connectiontimeout", "maxconnections"}
  const COUNT_KEYS: set<string> := {"maxretrycountclient", "maxrowperpage"}
  const LOG_PATH := "logoutput"

  function KindOf(key: string): Option<Kind> {
    if key in TEXT_KEYS then Some(TextKey)
    else if key in POSITIVE_KEYS then Some(PositiveKey)
    else if key in COUNT_KEYS then Some(CountKey)
    else if key == "auth" then Some(AuthKey)
    else if key == "loglevel" then Some(LevelKey)
    else if key == LOG_PATH then Some(PathKey)
    else None
  }

  /** A configuration as the setters can make it: known keys, each with a value of its field's type. */
  predicate Fits(key: string, value: Value) {
    match KindOf(key)
    case None => false
    case Some(TextKey) => value.Text?
    case Some(PathKey) => value.Text?
    case Some(PositiveKey) => value.Number? && IsInt32(value.n)
    case Some(CountKey) => value.Number? && IsInt32(value.n)
    case Some(AuthKey) => value.Auth?
    case Some(LevelKey) => value.Level?
  }

  predicate WellTyped(settings: Settings) {
    forall key | key in settings :: Fits(key, settings[key])
  }

  // Reading one attribute

  function AuthFrom(value: string): Option<AuthType> {
    var name := Trim(ToLower(value));
    if name == "aws_profile" then Some(AwsProfile)
    else if name == "iam" then Some(Iam)
    else if name == "aad" then Some(Aad)
    else if name == "okta" then Some(Okta)
    else None
  }

  function LevelFrom(value: string): Option<LogLevel> {
    var name := Trim(value);
    if name == "4" then Some(DebugLevel)
    else if name == "3" then Some(InfoLevel)
    else if name == "2" then Some(WarningLevel)
    else if name == "1" then Some(ErrorLevel)
    else if name == "0" then Some(Off)
    else None
  }

  /** Up to the unsigned maximum is accepted, but the fields are signed: the upper half wraps around. */
  function WrapToInt32(n: nat): int {
    if n > INT32_MAX then n - UINT32_MAX - 1 else n
  }

  /**
    A number is refused when it is empty, holds anything but digits, is too long or is out of range.
    A text whose number does not fit 64 bits reads as the 64-bit maximum, which is out of range too.
  */
  function NumberFrom(value: string, least: nat): Option<int> {
    if value == "" || !AllDigits(value) || |value| >= STRING_OBJECT_SIZE then None
    else if least <= NumberOf(value) <= UINT32_MAX then Some(WrapToInt32(NumberOf(value)))
    else None
  }

  /** What an attribute stores under its lower-case key, if it is known and accepted. */
  function Stored(isDirectory: string -> bool, key: string, value: string): Option<Value> {
    match KindOf(key)
    case None => None
    case Some(TextKey) => Some(Text(value))
    case Some(PathKey) => if isDirectory(value) then Some(Text(value)) else None
    case Some(PositiveKey) => NumberFrom(value, 1).Map(n => Number(n))
    case Some(CountKey) => NumberFrom(value, 0).Map(n => Number(n))
    case Some(AuthKey) => AuthFrom(value).Map(a => Auth(a))
    case Some(LevelKey) => LevelFrom(value).Map(l => Level(l))
  }

  /** Which value, if any, an attribute text stores under a lower-case key. */
  type Acceptor = (string, string) -> Option<Value>

  function Accepting(isDirectory: string -> bool): Acceptor {
    (key, value) => Stored(isDirectory, key, value)
  }

  // Printing

  function AuthName(auth: AuthType): string {
    match auth
    case AwsProfile => "aws_profile"
    case Iam => "iam"
    case Aad => "aad"
    case Okta => "okta"
  }

  function LevelName(level: LogLevel): string {
    match level
    case DebugLevel => "4"
    case InfoLevel => "3"
    case WarningLevel => "2"
    case ErrorLevel => "1"
    case Off => "0"
    case Unknown => "unknown"
  }

  function TextOf(value: Value): string {
    match value
    case Text(s) => s
    case Number(n) => Signed(n)
    case Auth(a) => AuthName(a)
    case Level(l) => LevelName(l)
  }

  function Quoted(text: string): string {
    if ' ' in text then "{" + text + "}" else text
  }

  function Entry(key: string, text: string): string {
    if text == "" then "" else key + "=" + Quoted(text) + ";"
  }

  /** The order of the map the arguments are collected in. */
  predicate Less(a: string, b: string) {
    b != "" && (a == "" || a[0] < b[0] || (a[0] == b[0] && Less(a[1..], b[1..])))
  }

  predicate Ascending(order: seq<string>, settings: Settings) {
    && (forall i, j | 0 <= i < j < |order| :: Less(order[i], order[j]))
    && (forall i | 0 <= i < |order| :: order[i] in settings)
  }

  predicate Lists(order: seq<string>, settings: Settings) {
    Ascending(order, settings) && forall key | key in settings :: key in order
  }

  /** At place k the texts first differ: there the first one ends, or has the smaller character. */
  predicate Differs(a: string, b: string, k: nat) {
    k <= |a| && k < |b| && a[..k] == b[..k] && (k == |a| || a[k] < b[k])
  }

  lemma DiffersOneOn(a: string, b: string, k: nat)
    requires a != "" && b != "" && a[0] == b[0]
    ensures Differs(a[1..], b[1..], k) <==> Differs(a, b, k + 1)
  {
    if k + 1 <= |a| && k + 1 < |b| {
      assert a[..k + 1] == [a[0]] + a[1..][..k] && b[..k + 1] == [b[0]] + b[1..][..k];
      if a[..k + 1] == b[..k + 1] {
        assert a[1..][..k] == a[..k + 1][1..] && b[1..][..k] == b[..k + 1][1..];
      }
    }
  }

  /** The order is the lexicographic one. */
  lemma {:induction false} LessAtFirstDifference(a: string, b: string)
    ensures Less(a, b) <==> exists k: nat :: Differs(a, b, k)
  {
    if a == "" || b == "" {
      if b != "" {
        assert Differs(a, b, 0);
      }
    } else if a[0] < b[0] {
      assert Differs(a, b, 0);
    } else if a[0] == b[0] {
      LessAtFirstDifference(a[1..], b[1..]);
      if k: nat :| Differs(a[1..], b[1..], k) {
        DiffersOneOn(a, b, k);
      }
      if k: nat :| Differs(a, b, k) {
        assert k > 0;
        DiffersOneOn(a, b, k - 1);
      }
    } else if k: nat :| Differs(a, b, k) {
      assert k == 0 || a[..k][0] == b[..k][0];
    }
  }

  lemma NotLessThanItself(a: string)
    ensures !Less(a, a)
  {
  }

  function Printed(order: seq<string>, settings: Settings): string
    requires forall i | 0 <= i < |order| :: order[i] in settings
  {
    if order == [] then ""
    else Entry(order[0], TextOf(settings[order[0]])) + Printed(order[1..], settings)
  }

  lemma PrintedNext(order: seq<string>, i: nat, settings: Settings, before: string)
    requires i < |order| && forall j | 0 <= j < |order| :: order[j] in settings
    ensures before + Printed(order[i..], settings)
         == before + Entry(order[i], TextOf(settings[order[i]])) + Printed(order[i + 1..], settings)
  {
    assert order[i..][1..] == order[i + 1..];
    Regroup(before, Entry(order[i], TextOf(settings[order[i]])), Printed(order[i + 1..], settings));
  }

  lemma Regroup(a: string, b: string, c: string)
    ensures a + (b + c) == a + b + c
  {
  }

  /** If there is a space in the value, braces go around it; an empty value is not written. */
  method WriteEntry(text: string, key: string, value: string) returns (result: string)
    ensures result == text + Entry(key, value)
  {
    result := text;
    if value == "" {
      return;
    }
    if ' ' !in value {
      result := text + key + "=" + value + ";";
      assert result == text + (key + "=" + value + ";");
    } else {
      result := text + key + "={" + value + "};";
      assert result == text + (key + "=" + ("{" + value + "}") + ";");
    }
  }

  class Configuration {
    var settings: Settings

    constructor ()
      ensures settings == map[]
    {
      settings := map[];
    }

    method Set(key: string, value: Value)
      modifies this
      ensures settings == old(settings)[key := value]
    {
      settings := settings[key := value];
    }

    /** A path is taken only if it names a directory. */
    method SetLogPath(isDirectory: string -> bool, path: string)
      modifies this
      ensures settings
           == if isDirectory(path) then old(settings)[LOG_PATH := Text(path)] else old(settings)
    {
      if isDirectory(path) {
        Set(LOG_PATH, Text(path));
      }
    }

    /** Walks the arguments in key order; order is the map's own. */
    method ToConnectString(order: seq<string>) returns (text: string)
      requires Lists(order, settings)
      ensures text == Printed(order, settings)
    {
      text := "";
      var i: nat := 0;
      while i < |order|
        invariant i <= |order|
        invariant text + Printed(order[i..], settings) == Printed(order, settings)
      {
        PrintedNext(order, i, settings, text);
        text := WriteEntry(text, order[i], TextOf(settings[order[i]]));
        i := i + 1;
      }
    }
  }
}
