/**
  Reading one text cell in parts: SQLGetData, PutStrToStrBuffer and the copy functions beneath it.

  Texts are ASCII without NUL, so a byte of the cell is a character of it. The application's buffer
  is an array of output characters; its length is given in bytes, of which a character takes size.
*/
module ChunkedRead {
  import opened OdbcTypes

  /** How text leaves the driver: narrow (with or without the ANSI-only setting) or wide. */
  datatype Target = Narrow(ansiOnly: bool) | Wide(size: nat)

  ghost predicate ValidTarget(t: Target) {
    t.Wide? ==> t.size == 2 || t.size == 4
  }

  function CharSize(t: Target): nat {
    if t.Wide? then t.size else 1
  }

  // The copy functions

  /** What a copy leaves in the buffer (None: nothing, not even a terminator), and what it reports. */
  datatype Copied = Copied(text: Option<string>, bytes: nat, truncated: bool)

  function CopyNarrow(ansiOnly: bool, text: string, buflen: nat): Copied {
    var n := if buflen > 0 then Min(|text|, buflen - 1) else 0;
    if ansiOnly then Copied(if buflen > 0 then Some(text[..n]) else None, n, |text| >= buflen)
    else Copied(if n > 0 then Some(text[..n]) else None, n, n < |text|)
  }

  /** A buffer with room for no more than the terminator is left alone: the text goes to a proxy. */
  function CopyWide(size: nat, text: string, buflen: nat): Copied
    requires size > 0
  {
    if buflen == 0 then Copied(None, 0, false)
    else if buflen > size then
      var n := Min(|text|, buflen / size - 1);
      Copied(Some(text[..n]), n * size, n < |text|)
    else Copied(None, |text| * size, false)
  }

  function Copy(t: Target, text: string, buflen: nat): Copied
    requires ValidTarget(t)
  {
    match t
    case Narrow(ansiOnly) => CopyNarrow(ansiOnly, text, buflen)
    case Wide(size) => CopyWide(size, text, buflen)
  }

  /** The two narrow paths do the same exactly when there is text and the buffer is not one byte long. */
  lemma NarrowPathsAgree(text: string, buflen: nat)
    ensures CopyNarrow(true, text, buflen) == CopyNarrow(false, text, buflen) <==> text != "" && buflen != 1
  {
  }

  // PutStrToStrBuffer

  /** The indicator is None when the call leaves it alone. */
  datatype Part = Part(result: ConversionResult, text: Option<string>, indicator: Option<int>, offset: int)

  function PutStr(t: Target, value: string, buflen: nat, offset: int): Part
    requires ValidTarget(t)
  {
    var size := CharSize(t);
    var required := |value| * size;
    var current := if offset >= 0 then offset else 0;
    if current * size >= required then Part(NothingLeft, None, None, offset)
    else
      MulMonotone(size, current, |value|);
      var c := Copy(t, value[current..], buflen);
      var total := current * size + c.bytes;
      var indicator := if required - total != 0 then required - total else required;
      if c.truncated
      then Part(VarlenDataTruncated, c.text, Some(indicator), current + buflen / size - 1)
      else Part(Converted, c.text, Some(indicator), if offset >= 0 then total else offset)
  }

  lemma MulMonotone(size: nat, a: int, b: int)
    requires size > 0
    ensures a * size >= b * size <==> a >= b
  {
  }

  /** The text not yet handed out. */
  function Unread(value: string, offset: int): string {
    if offset >= |value| then "" else if offset >= 0 then value[offset..] else value
  }

  /** One call hands out the next part and says how much is left. */
  ghost predicate Faithful(t: Target, value: string, buflen: nat, offset: int)
    requires ValidTarget(t)
  {
    var part := PutStr(t, value, buflen, offset);
    var rest := Unread(value, part.offset);
    && part.text.Some? && part.text.value != ""
    && Unread(value, offset) == part.text.value + rest
    && part.result == (if rest != "" then VarlenDataTruncated else Converted)
    && part.indicator == Some((if rest != "" then |rest| else |value|) * CharSize(t))
    && (|part.text.value| + 1) * CharSize(t) <= buflen
  }

  /** The size of a part: all that is unread, or what fits before the terminator. */
  function PartSize(t: Target, unread: string, buflen: nat): nat
    requires ValidTarget(t) && buflen / CharSize(t) >= 2
  {
    Min(|unread|, buflen / CharSize(t) - 1)
  }

  lemma PartTakesAndDrops(t: Target, value: string, buflen: nat, offset: nat)
    requires ValidTarget(t) && Unread(value, offset) != "" && buflen / CharSize(t) >= 2
    ensures var part := PutStr(t, value, buflen, offset);
      var unread := Unread(value, offset);
      var n := PartSize(t, unread, buflen);
      && part.text == Some(unread[..n]) && Unread(value, part.offset) == unread[n..]
      && part.result == (if n < |unread| then VarlenDataTruncated else Converted)
      && part.indicator == Some((if n < |unread| then |unread| - n else |value|) * CharSize(t))
  {
    var size := CharSize(t);
    var unread := Unread(value, offset);
    var n := PartSize(t, unread, buflen);
    MulMonotone(size, offset, |value|);
    WholeCharacters(t, unread, buflen);
    LeftOver(size, |value|, offset, n);
    assert unread == value[offset..];
  }

  /** With room for a character and the terminator, whole characters are copied on every path. */
  lemma WholeCharacters(t: Target, text: string, buflen: nat)
    requires ValidTarget(t) && text != "" && buflen / CharSize(t) >= 2
    ensures
      var n := PartSize(t, text, buflen);
      Copy(t, text, buflen) == Copied(Some(text[..n]), n * CharSize(t), n < |text|)
  {
  }

  lemma LeftOver(size: nat, length: nat, offset: nat, n: nat)
    requires size > 0 && offset + n <= length
    ensures length * size - (offset * size + n * size) == (length - offset - n) * size
    ensures (length - offset - n) * size == 0 <==> offset + n == length
    ensures offset + n == length ==> offset * size + n * size == length * size >= length
  {
  }

  lemma FaithfulWithTwoCharacters(t: Target, value: string, buflen: nat, offset: nat)
    requires ValidTarget(t) && Unread(value, offset) != "" && buflen / CharSize(t) >= 2
    ensures Faithful(t, value, buflen, offset)
  {
    PartTakesAndDrops(t, value, buflen, offset);
    var unread := Unread(value, offset);
    var n := PartSize(t, unread, buflen);
    assert unread == unread[..n] + unread[n..];
    MulMonotone(CharSize(t), buflen / CharSize(t), n + 1);
  }

  lemma NothingHandedOut(t: Target, value: string, buflen: nat, offset: nat)
    requires ValidTarget(t) && Unread(value, offset) != "" && buflen / CharSize(t) < 2
    ensures var part := PutStr(t, value, buflen, offset); part.text.None? || part.text.value == ""
  {
  }

  /**
    With less room a narrow target reports a truncation each time, and a buffer of no length steps back; a
    wide target reports success, and a buffer of one character passes over all that is left.
  */
  lemma WithoutRoom(t: Target, value: string, buflen: nat, offset: nat)
    requires ValidTarget(t) && Unread(value, offset) != ""
    requires buflen == 0 || buflen == CharSize(t)
    ensures
      var part := PutStr(t, value, buflen, offset);
      if t.Narrow? then
        part.result == VarlenDataTruncated && part.offset == offset + buflen - 1
        && part.indicator == Some(|value| - offset)
      else
        part.result == Converted && part.text == None
        && part.offset == t.size * (if buflen == 0 then offset else |value|)
        && part.indicator == Some(t.size * if buflen == 0 then |value| - offset else |value|)
  {
    MulMonotone(CharSize(t), offset, |value|);
  }

  /** A call on unread text does its job exactly when the buffer has room for two characters. */
  lemma FaithfulExactlyWithTwoCharacters(t: Target, value: string, buflen: nat, offset: nat)
    requires ValidTarget(t) && Unread(value, offset) != ""
    ensures Faithful(t, value, buflen, offset) <==> buflen / CharSize(t) >= 2
  {
    if buflen / CharSize(t) >= 2 {
      FaithfulWithTwoCharacters(t, value, buflen, offset);
    } else {
      NothingHandedOut(t, value, buflen, offset);
    }
  }

  // A whole read: consecutive calls on one cell

  /** The parts that consecutive calls with these buffer lengths return. */
  function Parts(t: Target, value: string, buflens: seq<nat>, offset: int): (parts: seq<Part>)
    requires ValidTarget(t)
    ensures |parts| == |buflens|
    decreases |buflens|
  {
    if buflens == [] then []
    else
      var part := PutStr(t, value, buflens[0], offset);
      [part] + Parts(t, value, buflens[1..], part.offset)
  }

  function Handed(part: Part): string {
    if part.text.Some? then part.text.value else ""
  }

  function TextOf(parts: seq<Part>): string {
    if parts == [] then "" else Handed(parts[0]) + TextOf(parts[1..])
  }

  /** Truncated parts, then a converted one, then "nothing left" for ever. */
  predicate InOrder(parts: seq<Part>, unread: string)
    decreases |parts|
  {
    parts == []
    || (var p := parts[0];
        if unread == "" then p.result == NothingLeft && p.text == None && InOrder(parts[1..], "")
        else
          && p.text.Some? && p.text.value != "" && p.text.value <= unread
          && var rest := unread[|p.text.value|..];
             (p.result == if rest == "" then Converted else VarlenDataTruncated) && InOrder(parts[1..], rest))
  }

  lemma PartStep(t: Target, value: string, buflen: nat, offset: nat)
    requires ValidTarget(t) && buflen / CharSize(t) >= 2
    ensures var part := PutStr(t, value, buflen, offset);
      var unread := Unread(value, offset);
      if unread == "" then part == Part(NothingLeft, None, None, offset)
      else
        && part.offset >= 0 && part.text.Some? && part.text.value != ""
        && unread == part.text.value + Unread(value, part.offset)
        && part.result == if Unread(value, part.offset) == "" then Converted else VarlenDataTruncated
  {
    MulMonotone(CharSize(t), offset, |value|);
    if Unread(value, offset) != "" {
      FaithfulWithTwoCharacters(t, value, buflen, offset);
    }
  }

  lemma InOrderCons(part: Part, parts: seq<Part>, unread: string, rest: string)
    requires InOrder(parts, rest)
    requires if unread == "" then part.result == NothingLeft && part.text == None && rest == ""
      else part.text.Some? && part.text.value != "" && unread == part.text.value + rest
           && part.result == if rest == "" then Converted else VarlenDataTruncated
    ensures InOrder([part] + parts, unread)
    ensures TextOf([part] + parts) == Handed(part) + TextOf(parts)
  {
  }

  /** Every buffer has room for a character and the terminator. */
  predicate Roomy(t: Target, buflens: seq<nat>)
    requires ValidTarget(t)
  {
    forall i | 0 <= i < |buflens| :: buflens[i] / CharSize(t) >= 2
  }

  /** Every read of a cell in parts, whatever the buffer lengths, hands out the cell from left to right. */
  lemma {:induction false} PartsMakeTheCell(t: Target, value: string, buflens: seq<nat>, offset: nat)
    requires ValidTarget(t) && Roomy(t, buflens)
    ensures var parts := Parts(t, value, buflens, offset);
      && InOrder(parts, Unread(value, offset))
      && TextOf(parts) <= Unread(value, offset)
      && (|buflens| >= |Unread(value, offset)| ==> TextOf(parts) == Unread(value, offset))
    decreases |buflens|
  {
    if buflens != [] {
      var part := PutStr(t, value, buflens[0], offset);
      PartStep(t, value, buflens[0], offset);
      PartsMakeTheCell(t, value, buflens[1..], part.offset);
      InOrderCons(part, Parts(t, value, buflens[1..], part.offset), Unread(value, offset), Unread(value, part.offset));
    }
  }

  /** The length reported while a read goes on is what is still unread, in bytes, and it shrinks. */
  lemma LengthsShrink(t: Target, value: string, buflen: nat, buflen': nat, offset: nat)
    requires ValidTarget(t) && buflen / CharSize(t) >= 2 && buflen' / CharSize(t) >= 2
    requires PutStr(t, value, buflen, offset).result == VarlenDataTruncated
    requires PutStr(t, value, buflen', PutStr(t, value, buflen, offset).offset).result == VarlenDataTruncated
    ensures var p := PutStr(t, value, buflen, offset);
      var p' := PutStr(t, value, buflen', p.offset);
      && p.indicator == Some(|Unread(value, p.offset)| * CharSize(t))
      && p'.indicator.Some? && p'.indicator.value < p.indicator.value
  {
    var size := CharSize(t);
    var p := PutStr(t, value, buflen, offset);
    MulMonotone(size, offset, |value|);
    PartTakesAndDrops(t, value, buflen, offset);
    MulMonotone(size, p.offset, |value|);
    PartTakesAndDrops(t, value, buflen', p.offset);
    var p' := PutStr(t, value, buflen', p.offset);
    MulMonotone(size, |Unread(value, p'.offset)|, |Unread(value, p.offset)|);
  }

  /**
    A bound column keeps its own offset, -1 until a value is truncated. From then on the next row's
    value is read from the middle, so the whole value is put exactly when nothing was truncated before.
  */
  lemma BoundColumnStartsOver(t: Target, value: string, buflen: nat)
    requires ValidTarget(t) && value != "" && buflen / CharSize(t) >= 2
    ensures PutStr(t, value, buflen, -1).offset == -1 <==> |value| < buflen / CharSize(t)
    ensures var offset := PutStr(t, value, buflen, -1).offset;
      forall next: string {:trigger Unread(next, offset)} | next != "" ::
        Unread(next, offset) == next <==> |value| < buflen / CharSize(t)
  {
    PartTakesAndDrops(t, value, buflen, 0);
    MulMonotone(CharSize(t), 0, |value|);
  }
}
