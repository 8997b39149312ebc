/** The string helpers used by the text transformations. */
module TextUtil {
  import Segments

  predicate IsSpace(c: char) {
    c == ' ' || ('\t' <= c <= '\r')
  }

  predicate AllSpace(s: string) {
    forall i | 0 <= i < |s| :: IsSpace(s[i])
  }

  function Ltrim(s: string): string {
    if s != "" && IsSpace(s[0]) then Ltrim(s[1..]) else s
  }

  function Rtrim(s: string): string {
    if s != "" && IsSpace(s[|s| - 1]) then Rtrim(s[..|s| - 1]) else s
  }

  function Trim(s: string): string {
    Ltrim(Rtrim(s))
  }

  /** Only the white space in front goes. */
  lemma {:induction false} LtrimDrops(s: string)
    ensures var r := Ltrim(s);
      (r != "" ==> !IsSpace(r[0])) && |r| <= |s| && r == s[|s| - |r|..] && AllSpace(s[..|s| - |r|])
  {
    if s != "" && IsSpace(s[0]) {
      LtrimDrops(s[1..]);
      var r := Ltrim(s);
      assert s[..|s| - |r|] == [s[0]] + s[1..][..|s| - 1 - |r|];
    }
  }

  /** Only the white space at the end goes. */
  lemma {:induction false} RtrimDrops(s: string)
    ensures var r := Rtrim(s);
      (r != "" ==> !IsSpace(r[|r| - 1])) && |r| <= |s| && r == s[..|r|] && AllSpace(s[|r|..])
  {
    if s != "" && IsSpace(s[|s| - 1]) {
      RtrimDrops(s[..|s| - 1]);
      var r := Rtrim(s);
      assert s[|r|..] == s[..|s| - 1][|r|..] + [s[|s| - 1]];
    }
  }

  lemma TrimEmpty(s: string)
    ensures Trim(s) == "" <==> AllSpace(s)
  {
    RtrimDrops(s);
    LtrimDrops(Rtrim(s));
    var right := Rtrim(s);
    if Trim(s) == "" {
      assert right == right[..|right|];
      assert right == "" && s[0..] == s;
    } else {
      var a := |right| - |Trim(s)|;
      assert s[a] == right[a] == Trim(s)[0];
    }
  }

  lemma TrimShortens(s: string)
    ensures |Trim(s)| <= |s| && (|Trim(s)| == |s| ==> Trim(s) == s)
  {
    RtrimDrops(s);
    LtrimDrops(Rtrim(s));
  }

  lemma RtrimKeeps(s: string)
    ensures Rtrim(s) == s <==> s == "" || !IsSpace(s[|s| - 1])
  {
    RtrimDrops(s);
  }

  lemma LtrimKeeps(s: string)
    ensures Ltrim(s) == s <==> s == "" || !IsSpace(s[0])
  {
    LtrimDrops(s);
  }

  lemma LtrimNoLonger(s: string)
    ensures |Ltrim(s)| <= |s|
  {
    LtrimDrops(s);
  }

  lemma RtrimSame(s: string)
    requires |Rtrim(s)| == |s|
    ensures Rtrim(s) == s
  {
    RtrimDrops(s);
  }

  lemma RtrimNoLonger(s: string)
    ensures |Rtrim(s)| <= |s|
  {
    RtrimDrops(s);
  }

  lemma TrimIdentity(s: string)
    ensures Trim(s) == s <==> s == "" || (!IsSpace(s[0]) && !IsSpace(s[|s| - 1]))
  {
    RtrimKeeps(s);
    LtrimKeeps(s);
    if Trim(s) == s {
      RtrimNoLonger(s);
      LtrimNoLonger(Rtrim(s));
      RtrimSame(s);
    }
  }

  /** The text of a character array: what stands before the first NUL. */
  function CString(s: string): string {
    if s == "" || s[0] == '\0' then "" else [s[0]] + CString(s[1..])
  }

  lemma {:induction false} CStringKeeps(s: string)
    ensures |CString(s)| <= |s| && (|CString(s)| == |s| <==> Segments.Free(s, '\0'))
    ensures Segments.Free(s, '\0') ==> CString(s) == s
  {
    if s != "" && s[0] != '\0' {
      CStringKeeps(s[1..]);
      assert s == [s[0]] + s[1..];
    }
  }

  lemma {:induction false} CStringOfWritten(text: string, rest: seq<char>)
    ensures CString(text + ['\0'] + rest) == CString(text)
  {
    var s := text + ['\0'] + rest;
    if text != "" && text[0] != '\0' {
      CStringOfWritten(text[1..], rest);
      assert s[1..] == text[1..] + ['\0'] + rest;
    }
  }

  // Letter case

  function ToUpper(s: string): (r: string)
    ensures |r| == |s|
  {
    seq(|s|, i requires 0 <= i < |s| => if 'a' <= s[i] <= 'z' then s[i] - 'a' + 'A' else s[i])
  }

  function ToLower(s: string): (r: string)
    ensures |r| == |s|
  {
    seq(|s|, i requires 0 <= i < |s| => if 'A' <= s[i] <= 'Z' then s[i] - 'A' + 'a' else s[i])
  }

  predicate AllLower(s: string) {
    forall i | 0 <= i < |s| :: 'a' <= s[i] <= 'z'
  }

  /** The second character is the small letter of the first. */
  predicate SmallOf(capital: char, small: char) {
    'A' <= capital <= 'Z' && small as int == capital as int + 32
  }

  /** The same text, up to the case of its letters. */
  predicate SameText(a: string, b: string) {
    |a| == |b| && forall i | 0 <= i < |a| :: a[i] == b[i] || SmallOf(a[i], b[i]) || SmallOf(b[i], a[i])
  }

  lemma LowerAgrees(a: string, b: string)
    ensures ToLower(a) == ToLower(b) <==> SameText(a, b)
  {
    if ToLower(a) == ToLower(b) {
      forall i | 0 <= i < |a| ensures a[i] == b[i] || SmallOf(a[i], b[i]) || SmallOf(b[i], a[i]) {
        assert ToLower(a)[i] == ToLower(b)[i];
      }
    }
  }

  lemma UpperAgrees(a: string, b: string)
    ensures ToUpper(a) == ToUpper(b) <==> SameText(a, b)
  {
    if ToUpper(a) == ToUpper(b) {
      forall i | 0 <= i < |a| ensures a[i] == b[i] || SmallOf(a[i], b[i]) || SmallOf(b[i], a[i]) {
        assert ToUpper(a)[i] == ToUpper(b)[i];
      }
    }
  }

  lemma LowerIsSame(s: string)
    ensures SameText(ToLower(s), s) && (AllLower(s) ==> ToLower(s) == s)
  {
  }

  /** Trimming looks at white space only, which has no case. */
  lemma {:induction false} TrimLower(s: string)
    ensures Trim(ToLower(s)) == ToLower(Trim(s))
  {
    RtrimLower(s);
    LtrimLower(Rtrim(s));
  }

  lemma {:induction false} RtrimLower(s: string)
    ensures Rtrim(ToLower(s)) == ToLower(Rtrim(s))
  {
    if s != "" && IsSpace(s[|s| - 1]) {
      RtrimLower(s[..|s| - 1]);
      assert ToLower(s)[..|s| - 1] == ToLower(s[..|s| - 1]);
    }
  }

  lemma {:induction false} LtrimLower(s: string)
    ensures Ltrim(ToLower(s)) == ToLower(Ltrim(s))
  {
    if s != "" && IsSpace(s[0]) {
      LtrimLower(s[1..]);
      assert ToLower(s)[1..] == ToLower(s[1..]);
    }
  }

  /** The white space of the C locale. */
  lemma SpacesAre(c: char)
    ensures IsSpace(c) <==> c == ' ' || c == '\t' || c == '\n' || c as int == 11 || c as int == 12 || c == '\r'
  {
  }
}
