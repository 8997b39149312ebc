/** Day-to-second intervals as text: the scanner that reads them and the printer that writes them. */
module IntervalTexts {
  import opened OdbcTypes
  import opened TextUtil
  import opened DecimalText
  import opened ApplicationBuffers

  /** The printer's temporary buffer, with room for the terminator. */
  const TEMPORARY: nat := 32

  datatype Interval = Interval(day: int, hour: int, minute: int, second: int, fraction: int)

  /** The fields are signed 32-bit numbers, and nothing else is asked of them. */
  predicate Valid(v: Interval) {
    IsInt32(v.day) && IsInt32(v.hour) && IsInt32(v.minute) && IsInt32(v.second) && IsInt32(v.fraction)
  }

  // The printer

  function Padded(digits: string, width: nat): string
    decreases width - |digits|
  {
    if |digits| >= width then digits else Padded("0" + digits, width)
  }

  /** A number with zeros up to its width; a sign counts. */
  function ZeroPadded(n: int, width: nat): string
    requires width > 0
  {
    if n < 0 then "-" + Padded(Decimal(-n), width - 1) else Padded(Decimal(n), width)
  }

  /** A field of the format: what stands before it, and its width. */
  datatype Field = Field(literal: char, width: nat) {
    predicate Valid() {
      width >= 2 && !IsDigit(literal) && (IsSpace(literal) ==> literal == ' ')
    }
  }

  const FIELDS: seq<Field> := [Field(' ', 2), Field(':', 2), Field(':', 2), Field('.', 9)]

  predicate Format(fields: seq<Field>) {
    forall i | 0 <= i < |fields| :: fields[i].Valid()
  }

  function Times(v: Interval): seq<int> {
    [v.hour, v.minute, v.second, v.fraction]
  }

  function FieldsText(values: seq<int>, fields: seq<Field>): string
    requires |values| == |fields| && Format(fields)
  {
    if fields == [] then ""
    else [fields[0].literal] + ZeroPadded(values[0], fields[0].width) + FieldsText(values[1..], fields[1..])
  }

  function FullText(v: Interval): string {
    Signed(v.day) + FieldsText(Times(v), FIELDS)
  }

  /** What fits the temporary buffer. */
  function Print(v: Interval): string {
    var text := FullText(v);
    text[..Min(|text|, TEMPORARY - 1)]
  }

  // The scanner

  /** How many digits a number takes, at most width of them. */
  function DigitRun(s: string, width: nat): (n: nat)
    ensures n <= |s| && n <= width
  {
    if s == "" || width == 0 || !IsDigit(s[0]) then 0 else 1 + DigitRun(s[1..], width - 1)
  }

  /** A number that was read, and the text behind it. */
  datatype Reading = Reading(value: int, rest: string)

  function ScanDigits(s: string, width: nat): Option<Reading> {
    var n := DigitRun(s, width);
    if n == 0 then None else Some(Reading(NumberOf(s[..n]), s[n..]))
  }

  function Negated(read: Option<Reading>): Option<Reading> {
    if read.None? then None else Some(Reading(-read.value.value, read.value.rest))
  }

  /** White space, then a number of at most width characters, a sign among them. */
  function ScanInt(s: string, width: nat): Option<Reading>
    requires width > 0
  {
    var t := Ltrim(s);
    if t != "" && t[0] == '-' then Negated(ScanDigits(t[1..], width - 1))
    else if t != "" && t[0] == '+' then ScanDigits(t[1..], width - 1)
    else ScanDigits(t, width)
  }

  /** A space in the format stands for any white space, even none; another literal for itself. */
  function ScanField(s: string, field: Field): Option<Reading>
    requires field.width > 0
  {
    if field.literal == ' ' then ScanInt(s, field.width)
    else if s != "" && s[0] == field.literal then ScanInt(s[1..], field.width)
    else None
  }

  function ScanFields(s: string, fields: seq<Field>): (values: Option<seq<int>>)
    requires Format(fields)
    ensures values.Some? ==> |values.value| == |fields|
    decreases |fields|
  {
    if fields == [] then Some([])
    else match ScanField(s, fields[0])
      case None => None
      case Some(read) => ScanFields(read.rest, fields[1..]).Map((values: seq<int>) => [read.value] + values)
  }

  /** All five fields; None when the text gives fewer, which leaves the rest unset. */
  function Scan(text: string): Option<Interval> {
    match ScanInt(text, |text| + 1)
    case None => None
    case Some(day) =>
      match ScanFields(day.rest, FIELDS)
      case None => None
      case Some(values) => Some(Interval(day.value, values[0], values[1], values[2], values[3]))
  }

  // Fields

  /** The number takes no more characters than its width. */
  predicate FitsWidth(n: int, width: nat)
    requires width > 0
  {
    if n < 0 then -n < Power(width - 1) else n < Power(width)
  }

  predicate AllFit(values: seq<int>, fields: seq<Field>)
    requires |values| == |fields| && Format(fields)
  {
    forall i | 0 <= i < |fields| :: FitsWidth(values[i], fields[i].width)
  }

  /** Two characters for hour, minute and second, and nine for the fraction. */
  predicate InRange(v: Interval) {
    AllFit(Times(v), FIELDS)
  }

  lemma {:induction false} LeadingZero(s: string)
    requires AllDigits(s)
    ensures AllDigits("0" + s) && NumberOf("0" + s) == NumberOf(s)
  {
    if s == "" {
      assert "0" + s == "0" && "0"[..0] == "";
    } else {
      var n := |s| - 1;
      LeadingZero(s[..n]);
      assert ("0" + s)[..n + 1] == "0" + s[..n];
    }
  }

  lemma {:induction false} NumberBelowPower(s: string)
    requires AllDigits(s)
    ensures 0 <= NumberOf(s) < Power(|s|)
  {
    if s != "" {
      NumberBelowPower(s[..|s| - 1]);
    }
  }

  lemma {:induction false} DecimalNeeds(n: nat, k: nat)
    requires n >= Power(k)
    ensures |Decimal(n)| > k
  {
    NumberBelowPower(Decimal(n));
    DecimalReadsBack(n);
    if |Decimal(n)| <= k {
      PowerMonotone(|Decimal(n)|, k);
    }
  }

  lemma {:induction false} PowerMonotone(a: nat, b: nat)
    requires a <= b
    ensures Power(a) <= Power(b)
  {
    if a < b {
      PowerMonotone(a, b - 1);
    }
  }

  lemma {:induction false} PaddedReads(digits: string, width: nat)
    requires AllDigits(digits)
    ensures
      var p := Padded(digits, width);
      AllDigits(p) && NumberOf(p) == NumberOf(digits) && |p| == if |digits| < width then width else |digits|
    decreases width - |digits|
  {
    if |digits| < width {
      LeadingZero(digits);
      PaddedReads("0" + digits, width);
    }
  }

  // Scanning one number

  /** Digits are taken until the width is reached, or until something else follows them. */
  lemma {:induction false} RunOfDigits(digits: string, rest: string, width: nat)
    requires AllDigits(digits) && (|digits| >= width || rest == "" || !IsDigit(rest[0]))
    ensures DigitRun(digits + rest, width) == Min(|digits|, width)
    decreases |digits|
  {
    if digits == "" {
      assert digits + rest == rest;
    } else if width > 0 {
      assert (digits + rest)[1..] == digits[1..] + rest;
      RunOfDigits(digits[1..], rest, width - 1);
    }
  }

  lemma ScanDigitsTakes(digits: string, rest: string, width: nat, n: int)
    requires AllDigits(digits) && digits != "" && |digits| <= width && NumberOf(digits) == n
    requires |digits| == width || rest == "" || !IsDigit(rest[0])
    ensures ScanDigits(digits + rest, width) == Some(Reading(n, rest))
  {
    RunOfDigits(digits, rest, width);
    assert (digits + rest)[..|digits|] == digits && (digits + rest)[|digits|..] == rest;
  }

  lemma ScanDigitsCuts(digits: string, rest: string, width: nat)
    requires AllDigits(digits) && 0 < width < |digits|
    ensures AllDigits(digits[..width])
    ensures ScanDigits(digits + rest, width) == Some(Reading(NumberOf(digits[..width]), digits[width..] + rest))
  {
    RunOfDigits(digits, rest, width);
    assert (digits + rest)[..width] == digits[..width];
    assert (digits + rest)[width..] == digits[width..] + rest;
  }

  lemma ScanUnsigned(text: string, width: nat)
    requires text != "" && IsDigit(text[0]) && width > 0
    ensures ScanInt(text, width) == ScanDigits(text, width)
  {
  }

  lemma ScanNegative(text: string, width: nat)
    requires width > 0
    ensures ScanInt("-" + text, width) == Negated(ScanDigits(text, width - 1))
  {
    assert ("-" + text)[1..] == text;
  }

  lemma ScanMinus(text: string, width: nat, n: int, rest: string)
    requires width > 0 && ScanDigits(text, width - 1) == Some(Reading(n, rest))
    ensures ScanInt("-" + text, width) == Some(Reading(-n, rest))
  {
    ScanNegative(text, width);
  }

  /** A smaller magnitude is another number. */
  lemma ScanMinusCut(s: string, text: string, width: nat, n: int)
    requires width > 0 && s == "-" + text
    requires var read := ScanDigits(text, width - 1); read.Some? && read.value.value < -n
    ensures var read := ScanInt(s, width); read.Some? && read.value.value != n
  {
    ScanNegative(text, width);
  }

  lemma PlainReads(digits: string, rest: string, width: nat, n: int)
    requires AllDigits(digits) && 0 < |digits| <= width && NumberOf(digits) == n
    requires |digits| == width || rest == "" || !IsDigit(rest[0])
    ensures ScanInt(digits + rest, width) == Some(Reading(n, rest))
  {
    ScanDigitsTakes(digits, rest, width, n);
    assert IsDigit((digits + rest)[0]);
    ScanUnsigned(digits + rest, width);
  }

  lemma MinusReads(digits: string, rest: string, width: nat, n: int)
    requires AllDigits(digits) && 0 < |digits| < width && NumberOf(digits) == n
    requires |digits| == width - 1 || rest == "" || !IsDigit(rest[0])
    ensures ScanInt("-" + (digits + rest), width) == Some(Reading(-n, rest))
  {
    var text := digits + rest;
    assert ScanDigits(text, width - 1) == Some(Reading(n, rest)) by {
      ScanDigitsTakes(digits, rest, width - 1, n);
    }
    ScanMinus(text, width, n, rest);
  }

  lemma MinusGoesFirst(s: string, rest: string)
    ensures "-" + s + rest == "-" + (s + rest)
  {
  }

  lemma PaddedFits(m: nat, width: nat)
    requires width > 0 && m < Power(width)
    ensures
      var p := Padded(Decimal(m), width);
      AllDigits(p) && NumberOf(p) == m && |p| == width
  {
    DecimalLength(m, width);
    DecimalReadsBack(m);
    PaddedReads(Decimal(m), width);
  }

  /** A number no wider than its field is read back, whatever follows. */
  lemma FieldReadsBack(n: int, width: nat, rest: string)
    requires width >= 2 && FitsWidth(n, width)
    ensures |ZeroPadded(n, width)| == width && ScanInt(ZeroPadded(n, width) + rest, width) == Some(Reading(n, rest))
  {
    var m := if n < 0 then -n else n;
    var w := if n < 0 then width - 1 else width;
    PaddedFits(m, w);
    if n < 0 {
      MinusReads(Padded(Decimal(m), w), rest, width, m);
      MinusGoesFirst(Padded(Decimal(m), w), rest);
    } else {
      PlainReads(Padded(Decimal(m), w), rest, width, m);
    }
  }

  /** Too many digits are cut to a smaller number. */
  lemma DigitsAreCut(m: nat, width: nat, j: nat, rest: string)
    requires width > 0 && m >= Power(width) && width < j <= |Decimal(m)|
    ensures var read := ScanDigits(Decimal(m)[..j] + rest, width); read.Some? && read.value.value < m
  {
    ScanDigitsCuts(Decimal(m)[..j], rest, width);
    NumberBelowPower(Decimal(m)[..j][..width]);
  }

  lemma MinusStays(digits: string, j: nat, rest: string)
    requires 0 < j <= |digits| + 1
    ensures ("-" + digits)[..j] + rest == "-" + (digits[..j - 1] + rest)
  {
  }

  lemma WideNegativeText(n: int, width: nat)
    requires width >= 2 && n < 0 && !FitsWidth(n, width)
    ensures |Decimal(-n)| >= width && ZeroPadded(n, width) == "-" + Decimal(-n)
  {
    DecimalNeeds(-n, width - 1);
  }

  lemma CutNegative(digits: string, n: int, width: nat, j: nat, rest: string)
    requires 0 < width < j <= |digits| + 1
    requires var read := ScanDigits(digits[..j - 1] + rest, width - 1); read.Some? && read.value.value < -n
    ensures var read := ScanInt(("-" + digits)[..j] + rest, width); read.Some? && read.value.value != n
  {
    MinusStays(digits, j, rest);
    ScanMinusCut(("-" + digits)[..j] + rest, digits[..j - 1] + rest, width, n);
  }

  lemma WideNegativeIsCut(n: int, width: nat, j: nat, rest: string)
    requires width >= 2 && n < 0 && !FitsWidth(n, width) && width < j <= |ZeroPadded(n, width)|
    ensures var read := ScanInt(ZeroPadded(n, width)[..j] + rest, width); read.Some? && read.value.value != n
  {
    WideNegativeText(n, width);
    DigitsAreCut(-n, width - 1, j - 1, rest);
    CutNegative(Decimal(-n), n, width, j, rest);
  }

  /** A number wider than its field is read as another one. */
  lemma WideFieldIsCut(n: int, width: nat, j: nat, rest: string)
    requires width >= 2 && !FitsWidth(n, width) && width < j <= |ZeroPadded(n, width)|
    ensures var read := ScanInt(ZeroPadded(n, width)[..j] + rest, width); read.Some? && read.value.value != n
  {
    if n < 0 {
      WideNegativeIsCut(n, width, j, rest);
    } else {
      DecimalNeeds(n, width);
      DigitsAreCut(n, width, j, rest);
      ScanUnsigned(Decimal(n)[..j] + rest, width);
    }
  }

  lemma WideFieldIsLonger(n: int, width: nat)
    requires width >= 2 && !FitsWidth(n, width)
    ensures |ZeroPadded(n, width)| > width
  {
    DecimalNeeds(if n < 0 then -n else n, if n < 0 then width - 1 else width);
  }

  // Scanning the fields

  /** A space before a field is skipped with the white space that the number skips. */
  lemma LiteralGoes(field: Field, s: string)
    requires field.Valid() && s != "" && !IsSpace(s[0])
    ensures ScanField([field.literal] + s, field) == ScanInt(s, field.width)
  {
  }

  lemma ZeroPaddedStarts(n: int, width: nat)
    requires width > 0
    ensures ZeroPadded(n, width) != "" && !IsSpace(ZeroPadded(n, width)[0])
  {
    PaddedReads(Decimal(if n < 0 then -n else n), if n < 0 then width - 1 else width);
  }

  /** Enough of the text is there to tell whether its first field fits. */
  predicate Room(values: seq<int>, fields: seq<Field>, k: nat)
    requires |values| == |fields| && Format(fields)
  {
    fields == []
    || (var width := fields[0].width;
        k >= Min(1 + |ZeroPadded(values[0], width)|, 2 + width)
        && (FitsWidth(values[0], width) ==> k > width && Room(values[1..], fields[1..], k - 1 - width)))
  }

  lemma TakeBehind(c: char, s: string, rest: string, k: nat)
    requires 1 + |s| <= k <= 1 + |s| + |rest|
    ensures ([c] + s + rest)[..k] == [c] + (s + rest[..k - 1 - |s|])
  {
  }

  lemma FirstFieldReads(value: int, field: Field, rest: string, k: nat)
    requires field.Valid() && FitsWidth(value, field.width)
    requires field.width < k <= 1 + field.width + |rest|
    ensures |ZeroPadded(value, field.width)| == field.width
    ensures ScanField(([field.literal] + ZeroPadded(value, field.width) + rest)[..k], field)
         == Some(Reading(value, rest[..k - 1 - field.width]))
  {
    var after := rest[..k - 1 - field.width];
    FieldReadsBack(value, field.width, after);
    TakeBehind(field.literal, ZeroPadded(value, field.width), rest, k);
    ZeroPaddedStarts(value, field.width);
    LiteralGoes(field, ZeroPadded(value, field.width) + after);
  }

  lemma FirstFieldCut(value: int, field: Field, rest: string, k: nat)
    requires field.Valid() && !FitsWidth(value, field.width)
    requires k <= 1 + |ZeroPadded(value, field.width)| + |rest|
    requires k >= Min(1 + |ZeroPadded(value, field.width)|, 2 + field.width)
    ensures
      var read := ScanField(([field.literal] + ZeroPadded(value, field.width) + rest)[..k], field);
      read.Some? && read.value.value != value
  {
    var padded := ZeroPadded(value, field.width);
    WideFieldIsLonger(value, field.width);
    var j := Min(|padded|, k - 1);
    var after := rest[..k - 1 - j];
    WideFieldIsCut(value, field.width, j, after);
    ZeroPaddedStarts(value, field.width);
    LiteralGoes(field, padded[..j] + after);
    assert ([field.literal] + padded + rest)[..k] == [field.literal] + (padded[..j] + after);
  }

  /** Printed fields, even if the end of the text is missing, are read back exactly when all of them fit. */
  lemma {:induction false} FieldsReadBackExactly(values: seq<int>, fields: seq<Field>, k: nat)
    requires |values| == |fields| && Format(fields) && Room(values, fields, k)
    requires k <= |FieldsText(values, fields)|
    ensures ScanFields(FieldsText(values, fields)[..k], fields) == Some(values) <==> AllFit(values, fields)
    decreases |fields|
  {
    if fields != [] {
      var field, rest := fields[0], FieldsText(values[1..], fields[1..]);
      if FitsWidth(values[0], field.width) {
        FieldReadsBack(values[0], field.width, "");
        FirstFieldReads(values[0], field, rest, k);
        FieldsReadBackExactly(values[1..], fields[1..], k - 1 - field.width);
        AllFitRest(values, fields);
        assert values == [values[0]] + values[1..];
      } else {
        FirstFieldCut(values[0], field, rest, k);
      }
    }
  }

  lemma AllFitRest(values: seq<int>, fields: seq<Field>)
    requires |values| == |fields| && Format(fields) && fields != []
    ensures AllFit(values, fields)
        <==> FitsWidth(values[0], fields[0].width) && AllFit(values[1..], fields[1..])
  {
  }

  // The whole text

  lemma TenDigits()
    ensures Power(1) == 10 && Power(2) == 100 && Power(8) == 1_0000_0000 && Power(9) == 10_0000_0000
    ensures Power(10) == 100_0000_0000
  {
  }

  lemma ShortNumbers(n: int, width: nat)
    requires IsInt32(n) && width >= 2
    ensures |Signed(n)| <= 11 && |ZeroPadded(n, width)| <= if width < 11 then 11 else width
  {
    TenDigits();
    var m := if n < 0 then -n else n;
    DecimalLength(m, 10);
    PaddedReads(Decimal(m), if n < 0 then width - 1 else width);
  }

  lemma {:induction false} RoomInWhole(values: seq<int>, fields: seq<Field>)
    requires |values| == |fields| && Format(fields)
    ensures Room(values, fields, |FieldsText(values, fields)|)
    decreases |fields|
  {
    if fields != [] {
      RoomInWhole(values[1..], fields[1..]);
      if FitsWidth(values[0], fields[0].width) {
        FieldReadsBack(values[0], fields[0].width, "");
      }
    }
  }

  lemma RoomForFraction(v: Interval, k: nat)
    requires k >= 11
    ensures Room([v.fraction], [Field('.', 9)], k)
  {
  }

  /** Twenty characters reach through the three short fields and ten digits into the fraction. */
  lemma RoomInTwenty(v: Interval, k: nat)
    requires k >= 20
    ensures Room(Times(v), FIELDS, k)
  {
    RoomForFraction(v, k - 9);
    var values, fields := Times(v), FIELDS;
    assert values[1..][1..][1..] == [v.fraction] && fields[1..][1..][1..] == [Field('.', 9)];
    assert Room(values[1..][1..], fields[1..][1..], k - 6);
    assert Room(values[1..], fields[1..], k - 3);
  }

  lemma DayReadsBack(day: int, rest: string, width: nat)
    requires rest != "" && rest[0] == ' ' && width > |Signed(day)|
    ensures ScanInt(Signed(day) + rest, width) == Some(Reading(day, rest))
  {
    if day < 0 {
      DecimalReadsBack(-day);
      MinusReads(Decimal(-day), rest, width, -day);
      MinusGoesFirst(Decimal(-day), rest);
    } else {
      DecimalReadsBack(day);
      PlainReads(Decimal(day), rest, width, day);
    }
  }

  lemma TimeTextStarts(v: Interval)
    ensures FieldsText(Times(v), FIELDS) != "" && FieldsText(Times(v), FIELDS)[0] == ' '
  {
  }

  lemma CutFieldsReadBack(v: Interval, k: nat)
    requires k <= |FieldsText(Times(v), FIELDS)|
    requires k == |FieldsText(Times(v), FIELDS)| || k >= 20
    ensures ScanFields(FieldsText(Times(v), FIELDS)[..k], FIELDS) == Some(Times(v)) <==> InRange(v)
  {
    if k < 20 {
      RoomInWhole(Times(v), FIELDS);
    } else {
      RoomInTwenty(v, k);
    }
    FieldsReadBackExactly(Times(v), FIELDS, k);
  }

  lemma SameTimes(read: Option<seq<int>>, v: Interval)
    requires read.Some? ==> |read.value| == 4
    ensures
      read == Some(Times(v)) <==>
      read.Some? && Interval(v.day, read.value[0], read.value[1], read.value[2], read.value[3]) == v
  {
    if read.Some? {
      assert read.value == [read.value[0], read.value[1], read.value[2], read.value[3]];
    }
  }

  lemma PrintCuts(v: Interval)
    requires IsInt32(v.day)
    ensures
      var rest := FieldsText(Times(v), FIELDS);
      var k := |Print(v)| - |Signed(v.day)|;
      0 <= k <= |rest| && Print(v) == Signed(v.day) + rest[..k] && (k == |rest| || k >= 20)
  {
    ShortNumbers(v.day, 2);
  }

  lemma ScanBehindDay(v: Interval, tail: string)
    requires tail != "" && tail[0] == ' '
    ensures Scan(Signed(v.day) + tail) == Some(v) <==> ScanFields(tail, FIELDS) == Some(Times(v))
  {
    DayReadsBack(v.day, tail, |Signed(v.day) + tail| + 1);
    SameTimes(ScanFields(tail, FIELDS), v);
  }

  /**
    An interval survives printing and scanning exactly when its fields fit their widths; the sign
    takes one character of the width.
  */
  lemma PrintedIntervalSurvivesExactly(v: Interval)
    requires Valid(v)
    ensures Scan(Print(v)) == Some(v) <==> InRange(v)
  {
    var rest := FieldsText(Times(v), FIELDS);
    PrintCuts(v);
    var k := |Print(v)| - |Signed(v.day)|;
    TimeTextStarts(v);
    ScanBehindDay(v, rest[..k]);
    CutFieldsReadBack(v, k);
  }

  /** The printed text: day, hour, minute, second and fraction in their places, cut to 31 characters. */
  lemma PrintSays(v: Interval)
    ensures
      var whole :=
        Signed(v.day) + ([' '] + ZeroPadded(v.hour, 2) + ([':'] + ZeroPadded(v.minute, 2)
        + ([':'] + ZeroPadded(v.second, 2) + (['.'] + ZeroPadded(v.fraction, 9) + ""))));
      Print(v) == whole[..Min(|whole|, 31)]
  {
    PartsMakeTheText(v);
  }

  /** In range, the text and its terminator fit the temporary buffer. */
  lemma InRangeFits(v: Interval)
    requires Valid(v) && InRange(v)
    ensures |FullText(v)| < TEMPORARY && Print(v) == FullText(v)
  {
    ShortNumbers(v.day, 2);
    FieldsLength(Times(v), FIELDS);
    assert FIELDS[1..][1..][1..] == [Field('.', 9)];
    assert Widths(FIELDS) == 19;
  }

  function Widths(fields: seq<Field>): nat {
    if fields == [] then 0 else 1 + fields[0].width + Widths(fields[1..])
  }

  lemma {:induction false} FieldsLength(values: seq<int>, fields: seq<Field>)
    requires |values| == |fields| && Format(fields) && AllFit(values, fields)
    ensures |FieldsText(values, fields)| == Widths(fields)
    decreases |fields|
  {
    if fields != [] {
      FieldReadsBack(values[0], fields[0].width, "");
      AllFitRest(values, fields);
      FieldsLength(values[1..], fields[1..]);
    }
  }

  // Texts that are reproduced

  /** A field as the printer writes it: full width, and no minus in front of a zero. */
  predicate CanonicalField(s: string, width: nat) {
    && |s| == width >= 2
    && (AllDigits(s) || (s[0] == '-' && AllDigits(s[1..]) && NumberOf(s[1..]) != 0))
  }

  /** The day has no needless zeros, and no minus in front of a zero. */
  predicate CanonicalDay(s: string) {
    s != "" && (PlainNumber(s) || (s[0] == '-' && PlainNumber(s[1..]) && s[1..] != "0"))
  }

  predicate PlainNumber(s: string) {
    s != "" && AllDigits(s) && (s[0] != '0' || |s| == 1)
  }

  datatype Parts = Parts(day: string, hour: string, minute: string, second: string, fraction: string)

  predicate CanonicalParts(p: Parts) {
    && CanonicalDay(p.day) && IsInt32(SignedNumber(p.day))
    && CanonicalField(p.hour, 2) && CanonicalField(p.minute, 2) && CanonicalField(p.second, 2)
    && CanonicalField(p.fraction, 9)
  }

  function Whole(p: Parts): string {
    p.day + ([' '] + p.hour + ([':'] + p.minute + ([':'] + p.second + (['.'] + p.fraction + ""))))
  }

  function SignedNumber(s: string): int {
    if AllDigits(s) then NumberOf(s)
    else if s[0] == '-' then -NumberOf(s[1..])
    else 0
  }

  lemma {:induction false} SameNumberSameDigits(a: string, b: string)
    requires AllDigits(a) && AllDigits(b) && |a| == |b| && NumberOf(a) == NumberOf(b)
    ensures a == b
  {
    if a != "" {
      var n := |a| - 1;
      SameNumberSameDigits(a[..n], b[..n]);
      assert a == a[..n] + [a[n]] && b == b[..n] + [b[n]];
    }
  }

  lemma PaddedIsItself(s: string)
    requires AllDigits(s) && s != ""
    ensures NumberOf(s) >= 0 && Padded(Decimal(NumberOf(s)), |s|) == s
  {
    NumberBelowPower(s);
    DecimalLength(NumberOf(s), |s|);
    DecimalReadsBack(NumberOf(s));
    PaddedReads(Decimal(NumberOf(s)), |s|);
    SameNumberSameDigits(Padded(Decimal(NumberOf(s)), |s|), s);
  }

  lemma FieldIsReprinted(s: string, width: nat)
    requires CanonicalField(s, width)
    ensures ZeroPadded(SignedNumber(s), width) == s && FitsWidth(SignedNumber(s), width)
  {
    if AllDigits(s) {
      PaddedIsItself(s);
      NumberBelowPower(s);
    } else {
      PaddedIsItself(s[1..]);
      NumberBelowPower(s[1..]);
    }
  }

  lemma {:induction false} PlainNumberIsReprinted(s: string)
    requires PlainNumber(s)
    ensures NumberOf(s) >= 0 && Decimal(NumberOf(s)) == s
  {
    PaddedIsItself(s);
    if |s| > 1 {
      LeadingDigitCounts(s);
      DecimalNeeds(NumberOf(s), |s| - 1);
    }
  }

  lemma {:induction false} LeadingDigitCounts(s: string)
    requires AllDigits(s) && s != "" && s[0] != '0'
    ensures NumberOf(s) >= Power(|s| - 1)
  {
    if |s| == 1 {
      assert NumberOf(s) == 10 * NumberOf(s[..0]) + (s[0] as int - '0' as int);
    } else {
      LeadingDigitCounts(s[..|s| - 1]);
    }
  }

  lemma DayIsReprinted(s: string)
    requires CanonicalDay(s)
    ensures Signed(SignedNumber(s)) == s
  {
    if PlainNumber(s) {
      PlainNumberIsReprinted(s);
    } else {
      PlainNumberIsReprinted(s[1..]);
      assert Decimal(0) == "0";
    }
  }

  lemma FieldIsCanonical(n: int, width: nat)
    requires width >= 2 && FitsWidth(n, width)
    ensures CanonicalField(ZeroPadded(n, width), width)
  {
    FieldReadsBack(n, width, "");
    var m := if n < 0 then -n else n;
    DecimalReadsBack(m);
    PaddedReads(Decimal(m), if n < 0 then width - 1 else width);
  }

  lemma {:induction false} DecimalIsPlain(n: nat)
    ensures PlainNumber(Decimal(n)) && (n != 0 ==> Decimal(n)[0] != '0')
  {
    if n >= 10 {
      DecimalIsPlain(n / 10);
    }
  }

  lemma DayIsCanonical(n: int)
    ensures CanonicalDay(Signed(n)) && SignedNumber(Signed(n)) == n
  {
    var m := if n < 0 then -n else n;
    DecimalIsPlain(m);
    DecimalReadsBack(m);
  }

  function PartsOf(v: Interval): Parts {
    Parts(Signed(v.day), ZeroPadded(v.hour, 2), ZeroPadded(v.minute, 2), ZeroPadded(v.second, 2),
          ZeroPadded(v.fraction, 9))
  }

  lemma FirstText(value: int, field: Field, values: seq<int>, fields: seq<Field>)
    requires field.Valid() && |values| == |fields| && Format(fields)
    ensures Format([field] + fields)
    ensures FieldsText([value] + values, [field] + fields)
         == [field.literal] + ZeroPadded(value, field.width) + FieldsText(values, fields)
  {
  }

  lemma PartsMakeTheText(v: Interval)
    ensures Whole(PartsOf(v)) == FullText(v)
  {
    var f3 := [Field('.', 9)] + [];
    var f2 := [Field(':', 2)] + f3;
    var f1 := [Field(':', 2)] + f2;
    FirstText(v.fraction, Field('.', 9), [], []);
    FirstText(v.second, Field(':', 2), [v.fraction] + [], f3);
    FirstText(v.minute, Field(':', 2), [v.second] + ([v.fraction] + []), f2);
    FirstText(v.hour, Field(' ', 2), [v.minute] + ([v.second] + ([v.fraction] + [])), f1);
    assert Times(v) == [v.hour] + ([v.minute] + ([v.second] + ([v.fraction] + [])));
    assert FIELDS == [Field(' ', 2)] + f1;
  }

  function IntervalOf(p: Parts): Interval {
    Interval(SignedNumber(p.day), SignedNumber(p.hour), SignedNumber(p.minute), SignedNumber(p.second),
             SignedNumber(p.fraction))
  }

  lemma NarrowIsInt32(n: int, width: nat)
    requires 0 < width <= 9 && FitsWidth(n, width)
    ensures IsInt32(n)
  {
    TenDigits();
    PowerMonotone(width, 9);
    PowerMonotone(width - 1, 9);
  }

  lemma TimesFit(v: Interval)
    requires FitsWidth(v.hour, 2) && FitsWidth(v.minute, 2) && FitsWidth(v.second, 2) && FitsWidth(v.fraction, 9)
    ensures InRange(v) && IsInt32(v.hour) && IsInt32(v.minute) && IsInt32(v.second) && IsInt32(v.fraction)
  {
    NarrowIsInt32(v.hour, 2);
    NarrowIsInt32(v.minute, 2);
    NarrowIsInt32(v.second, 2);
    NarrowIsInt32(v.fraction, 9);
  }

  lemma CanonicalIsReprinted(p: Parts)
    requires CanonicalParts(p)
    ensures var v := IntervalOf(p); Valid(v) && InRange(v) && PartsOf(v) == p
  {
    DayIsReprinted(p.day);
    FieldIsReprinted(p.hour, 2);
    FieldIsReprinted(p.minute, 2);
    FieldIsReprinted(p.second, 2);
    FieldIsReprinted(p.fraction, 9);
    TimesFit(IntervalOf(p));
  }

  lemma InRangeIsCanonical(v: Interval)
    requires Valid(v) && InRange(v)
    ensures CanonicalParts(PartsOf(v))
  {
    assert FitsWidth(Times(v)[0], FIELDS[0].width) && FitsWidth(Times(v)[1], FIELDS[1].width);
    assert FitsWidth(Times(v)[2], FIELDS[2].width) && FitsWidth(Times(v)[3], FIELDS[3].width);
    DayIsCanonical(v.day);
    FieldIsCanonical(v.hour, 2);
    FieldIsCanonical(v.minute, 2);
    FieldIsCanonical(v.second, 2);
    FieldIsCanonical(v.fraction, 9);
  }

  /** The text is scanned, and the interval printed again is the same text. */
  predicate Reproduced(text: string) {
    var read := Scan(text);
    read.Some? && Valid(read.value) && Print(read.value) == text
  }

  /** Exactly the texts in canonical form are reproduced. */
  lemma ReproducedExactlyWhenCanonical(text: string)
    ensures Reproduced(text) <==> exists p :: CanonicalParts(p) && Whole(p) == text
  {
    if Reproduced(text) {
      var v := Scan(text).value;
      PrintedIntervalSurvivesExactly(v);
      InRangeFits(v);
      InRangeIsCanonical(v);
      PartsMakeTheText(v);
      assert CanonicalParts(PartsOf(v)) && Whole(PartsOf(v)) == text;
    }
    if p :| CanonicalParts(p) && Whole(p) == text {
      var v := IntervalOf(p);
      CanonicalIsReprinted(p);
      PartsMakeTheText(v);
      InRangeFits(v);
      PrintedIntervalSurvivesExactly(v);
    }
  }

  /**
    The text goes to a character buffer, cut to its length if need be. Target and indicator may be
    missing; a target of no length at all is not asked for.
  */
  method PutInterval(value: Interval, buffer: array?<char>, buflen: nat, hasIndicator: bool)
    returns (result: ConversionResult, reslen: Option<nat>)
    requires Valid(value) && (buffer != null ==> 0 < buflen <= buffer.Length)
    modifies buffer
    ensures |Print(value)| < TEMPORARY
    ensures reslen == if hasIndicator then Some(|Print(value)|) else None
    ensures result == if buffer == null || |Print(value)| < buflen then Converted else VarlenDataTruncated
    ensures buffer != null ==>
      buffer[..] == Written(old(buffer[..]), Some(Print(value)[..Min(|Print(value)|, buflen - 1)]))
  {
    var text := Print(value);
    reslen := if hasIndicator then Some(|text|) else None;
    result := Converted;
    if buffer != null {
      WriteText(text, Min(|text|, buflen - 1), buffer);
      if |text| + 1 > buflen {
        result := VarlenDataTruncated;
      }
    }
  }
}
