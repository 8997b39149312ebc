/** Keys and authentication names in any mixture of cases, and the options as the documentation writes them. */
module ConnectionCase {
  import opened OdbcTypes
  import opened TextUtil
  import opened Segments
  import opened DecimalText
  import opened ConfigurationModel
  import opened ConnectionStrings
  import opened ConnectionRoundTrip

  // Keys

  /** A segment gives a value to the key that it names in any mixture of cases, and to no other. */
  lemma GivesInAnyCase(accept: Acceptor, segment: string, key: string)
    requires AllLower(key)
    ensures Gives(accept, segment, key)
         == match SidesOf(segment)
            case None => None
            case Some(Sides(left, right)) =>
              if SameText(Trim(left), key) then accept(key, WithoutBraces(Trim(right))) else None
  {
    LowerIsSame(key);
    if SidesOf(segment).Some? {
      LowerAgrees(Trim(SidesOf(segment).value.left), key);
    }
  }

  lemma SameKeysSameStep(accept: Acceptor, a: string, b: string, right: string, settings: Settings)
    requires SameText(Trim(a), Trim(b))
    ensures HandleBoth(accept, settings, a, right) == HandleBoth(accept, settings, b, right)
  {
    LowerAgrees(Trim(a), Trim(b));
  }

  /** Two segments that differ in the case of the key's letters only do the same. */
  lemma KeysInAnyCase(accept: Acceptor, a: string, b: string, settings: Settings)
    requires SidesOf(a).Some? && SidesOf(b).Some? && SidesOf(a).value.right == SidesOf(b).value.right
    requires SameText(Trim(SidesOf(a).value.left), Trim(SidesOf(b).value.left))
    ensures Step(accept, a, settings) == Step(accept, b, settings)
  {
    SameKeysSameStep(accept, SidesOf(a).value.left, SidesOf(b).value.left, SidesOf(a).value.right, settings);
  }

  // Values

  lemma AuthNamesAreLower()
    ensures AllLower("iam") && AllLower("aad") && AllLower("okta") && ToLower("aws_profile") == "aws_profile"
  {
  }

  /** An authentication mode is named in any mixture of cases, with white space around it; nothing else names one. */
  lemma AuthInAnyCase(value: string)
    ensures AuthFrom(value) == Some(Iam) <==> SameText(Trim(value), "iam")
    ensures AuthFrom(value) == Some(Aad) <==> SameText(Trim(value), "aad")
    ensures AuthFrom(value) == Some(Okta) <==> SameText(Trim(value), "okta")
    ensures AuthFrom(value) == Some(AwsProfile) <==> SameText(Trim(value), "aws_profile")
  {
    AuthNamesAreLower();
    TrimLower(value);
    LowerIsSame("iam");
    LowerIsSame("aad");
    LowerIsSame("okta");
    LowerAgrees(Trim(value), "iam");
    LowerAgrees(Trim(value), "aad");
    LowerAgrees(Trim(value), "okta");
    LowerAgrees(Trim(value), "aws_profile");
  }

  /** A number is taken if it is made of digits only, not too long, and within the unsigned 32-bit range. */
  lemma NumberTaken(value: string, least: nat)
    ensures NumberFrom(value, least).Some?
            <==> value != "" && AllDigits(value) && |value| < 32 && least <= NumberOf(value) < 0x1_0000_0000
    ensures var n := NumberFrom(value, least);
      n.Some? ==> IsInt32(n.value) && (n.value == NumberOf(value) || n.value == NumberOf(value) - 0x1_0000_0000)
  {
  }

  // The options of the documentation

  /** The option's key is known under this name, in the case in which it is documented, and has this kind. */
  predicate Documented(name: string, key: string, kind: Kind) {
    SameText(name, key) && KindOf(key) == Some(kind)
  }

  lemma DriverOptions()
    ensures Documented("Driver", "driver", TextKey) && Documented("DSN", "dsn", TextKey)
    ensures Documented("EndpointOverride", "endpointoverride", TextKey)
    ensures Documented("ProfileName", "profilename", TextKey)
  {
  }

  lemma ModeOptions()
    ensures Documented("Auth", "auth", AuthKey) && Documented("Region", "region", TextKey)
  {
  }

  lemma CredentialOptions()
    ensures Documented("UID", "uid", TextKey) && Documented("AccessKeyId", "accesskeyid", TextKey)
    ensures Documented("PWD", "pwd", TextKey) && Documented("SecretKey", "secretkey", TextKey)
    ensures Documented("SessionToken", "sessiontoken", TextKey)
  {
  }

  lemma IdentityOptions()
    ensures Documented("IdPHost", "idphost", TextKey) && Documented("IdPUserName", "idpusername", TextKey)
    ensures Documented("IdPPassword", "idppassword", TextKey) && Documented("IdPARN", "idparn", TextKey)
  {
  }

  lemma ApplicationOptions()
    ensures Documented("OktaApplicationID", "oktaapplicationid", TextKey)
    ensures Documented("RoleARN", "rolearn", TextKey)
  {
  }

  lemma AzureOptions()
    ensures Documented("AADApplicationID", "aadapplicationid", TextKey)
    ensures Documented("AADClientSecret", "aadclientsecret", TextKey) && Documented("AADTenant", "aadtenant", TextKey)
  {
  }

  lemma TimeoutOptions()
    ensures Documented("RequestTimeout", "requesttimeout", PositiveKey)
    ensures Documented("ConnectionTimeout", "connectiontimeout", PositiveKey)
  {
  }

  lemma CountOptions()
    ensures Documented("MaxConnections", "maxconnections", PositiveKey)
    ensures Documented("MaxRetryCountClient", "maxretrycountclient", CountKey)
    ensures KindOf("maxrowperpage") == Some(CountKey)
  {
  }

  lemma LogOptions()
    ensures Documented("LogLevel", "loglevel", LevelKey) && Documented("LogOutput", "logoutput", PathKey)
  {
  }

  /** Every documented option is known, in the case in which it is documented. */
  lemma DocumentedOptions()
    ensures Documented("Driver", "driver", TextKey) && Documented("DSN", "dsn", TextKey)
    ensures Documented("EndpointOverride", "endpointoverride", TextKey)
    ensures Documented("ProfileName", "profilename", TextKey)
    ensures Documented("Auth", "auth", AuthKey) && Documented("Region", "region", TextKey)
    ensures Documented("UID", "uid", TextKey) && Documented("AccessKeyId", "accesskeyid", TextKey)
    ensures Documented("PWD", "pwd", TextKey) && Documented("SecretKey", "secretkey", TextKey)
    ensures Documented("SessionToken", "sessiontoken", TextKey)
    ensures Documented("IdPHost", "idphost", TextKey) && Documented("IdPUserName", "idpusername", TextKey)
    ensures Documented("IdPPassword", "idppassword", TextKey) && Documented("IdPARN", "idparn", TextKey)
    ensures Documented("OktaApplicationID", "oktaapplicationid", TextKey)
    ensures Documented("RoleARN", "rolearn", TextKey)
    ensures Documented("AADApplicationID", "aadapplicationid", TextKey)
    ensures Documented("AADClientSecret", "aadclientsecret", TextKey) && Documented("AADTenant", "aadtenant", TextKey)
    ensures Documented("RequestTimeout", "requesttimeout", PositiveKey)
    ensures Documented("ConnectionTimeout", "connectiontimeout", PositiveKey)
    ensures Documented("MaxConnections", "maxconnections", PositiveKey)
    ensures Documented("MaxRetryCountClient", "maxretrycountclient", CountKey)
    ensures KindOf("maxrowperpage") == Some(CountKey)
    ensures Documented("LogLevel", "loglevel", LevelKey) && Documented("LogOutput", "logoutput", PathKey)
  {
    DriverOptions();
    ModeOptions();
    CredentialOptions();
    IdentityOptions();
    ApplicationOptions();
    AzureOptions();
    TimeoutOptions();
    CountOptions();
    LogOptions();
  }

  /** The levels from nothing to everything. */
  lemma LogLevels()
    ensures LevelFrom("0") == Some(Off) && LevelFrom("1") == Some(ErrorLevel) && LevelFrom("2") == Some(WarningLevel)
    ensures LevelFrom("3") == Some(InfoLevel) && LevelFrom("4") == Some(DebugLevel)
  {
  }

  /** A timeout of zero is refused, although a number of retries may be zero. */
  lemma ZeroTimeoutIsRefused(isDirectory: Directories)
    ensures Stored(isDirectory, "requesttimeout", "0") == None
    ensures Stored(isDirectory, "connectiontimeout", "0") == None
    ensures Stored(isDirectory, "maxretrycountclient", "0") == Some(Number(0))
  {
    TimeoutOptions();
    CountOptions();
    assert NumberOf("0") == 0 by {
      assert Decimal(0) == "0";
      DecimalReadsBack(0);
    }
  }

  lemma OptionSides(name: string, value: string)
    requires name != "" && Free(value, '=')
    ensures SidesOf(name + "=" + value) == Some(Sides(name, value))
  {
    LastIndexBefore(name, '=', value);
    var s := name + "=" + value;
    assert s[..|name|] == name && s[|name| + 1..] == value;
  }

  /** An option as documented stores its value under the key, whatever was stored before. */
  lemma OptionStores(accept: Acceptor, name: string, key: string, kind: Kind, value: string, settings: Settings)
    requires Documented(name, key, kind) && name != "" && Trim(name) == name && Free(value, '=')
    ensures Step(accept, name + "=" + value, settings)
         == match accept(key, WithoutBraces(Trim(value)))
            case None => settings
            case Some(v) => settings[key := v]
  {
    OptionSides(name, value);
    LowerAgrees(name, key);
    KnownKeyStands(key);
  }

  lemma PlainValue(value: string)
    requires value != "" && !IsSpace(value[0]) && !IsSpace(value[|value| - 1]) && value[0] != '{'
    ensures WithoutBraces(Trim(value)) == value
  {
    TrimIdentity(value);
  }

  lemma PlainOptionStores(
      accept: Acceptor, segment: string, name: string, key: string, kind: Kind, value: string, v: Value,
      settings: Settings)
    requires segment == name + "=" + value && Documented(name, key, kind) && accept(key, value) == Some(v)
    requires name != "" && !IsSpace(name[0]) && !IsSpace(name[|name| - 1]) && Free(value, '=')
    requires value != "" && !IsSpace(value[0]) && !IsSpace(value[|value| - 1]) && value[0] != '{'
    ensures Step(accept, segment, settings) == settings[key := v]
  {
    TrimIdentity(name);
    PlainValue(value);
    OptionStores(accept, name, key, kind, value, settings);
  }

  lemma RegionStores(isDirectory: Directories, segment: string, settings: Settings)
    requires segment == "Region=us-east-2"
    ensures Step(Accepting(isDirectory), segment, settings) == settings["region" := Text("us-east-2")]
  {
    ModeOptions();
    PlainOptionStores(
      Accepting(isDirectory), segment, "Region", "region", TextKey, "us-east-2", Text("us-east-2"), settings);
  }

  lemma IamIsRead(isDirectory: Directories, value: string)
    requires value == "IAM"
    ensures Stored(isDirectory, "auth", value) == Some(Auth(Iam))
  {
    ModeOptions();
    TrimIdentity(value);
    AuthInAnyCase(value);
  }

  lemma AuthStores(isDirectory: Directories, segment: string, settings: Settings)
    requires segment == "Auth=IAM"
    ensures Step(Accepting(isDirectory), segment, settings) == settings["auth" := Auth(Iam)]
  {
    ModeOptions();
    IamIsRead(isDirectory, "IAM");
    PlainOptionStores(Accepting(isDirectory), segment, "Auth", "auth", AuthKey, "IAM", Auth(Iam), settings);
  }

  lemma FoldTwo(accept: Acceptor, first: string, second: string, settings: Settings)
    ensures Fold(accept, [first, second], settings) == Step(accept, first, Step(accept, second, settings))
  {
    var segments := [first, second];
    assert segments[1..] == [second] && [second][1..] == [];
    assert Fold(accept, [second], settings) == Step(accept, second, settings);
  }

  lemma ParsesTwo(accept: Acceptor, text: string, first: string, second: string, settings: Settings)
    requires Attribute(first) && Attribute(second) && text == first + [';'] + second
    ensures Parsed(accept, text, ';', settings) == Step(accept, first, Step(accept, second, settings))
  {
    var options := [first, second];
    assert options[1..] == [second];
    TextParses(accept, options, settings);
    FoldTwo(accept, first, second, settings);
  }

  /** IAM credentials in a region, written as in the documentation. */
  lemma IamConnectionString(isDirectory: Directories, text: string, auth: string, region: string)
    requires auth == "Auth=IAM" && region == "Region=us-east-2" && text == auth + [';'] + region
    ensures Parsed(Accepting(isDirectory), text, ';', map[])
         == map["auth" := Auth(Iam), "region" := Text("us-east-2")]
  {
    ParsesTwo(Accepting(isDirectory), text, auth, region, map[]);
    RegionStores(isDirectory, region, map[]);
    AuthStores(isDirectory, auth, map["region" := Text("us-east-2")]);
  }
}
