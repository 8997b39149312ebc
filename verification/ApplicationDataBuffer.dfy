/** The application's buffer, written in place, and the statement that reads a cell in parts. */
module ApplicationBuffers {
  import opened OdbcTypes
  import opened ChunkedRead
  import TextUtil
  import Segments

  /** Memory after a copy: the text and its terminator at the front, the rest untouched. */
  function Written(memory: seq<char>, text: Option<string>): (after: seq<char>)
    requires text.Some? ==> |text.value| < |memory|
    ensures |after| == |memory|
    ensures text.None? ==> after == memory
    ensures text.Some? ==> text.value <= after && after[|text.value|] == '\0'
    ensures text.Some? ==> after[|text.value| + 1..] == memory[|text.value| + 1..]
  {
    if text.None? then memory else text.value + ['\0'] + memory[|text.value| + 1..]
  }

  /** Writes the first n characters and a terminator. */
  method WriteText(text: string, n: nat, out: array<char>)
    requires n <= |text| && n < out.Length
    modifies out
    ensures out[..] == Written(old(out[..]), Some(text[..n]))
  {
    forall i | 0 <= i < n {
      out[i] := text[i];
    }
    out[n] := '\0';
  }

  method CopyUtf8StringToSqlCharString(ansiOnly: bool, text: string, out: array<char>, buflen: nat)
    returns (bytes: nat, truncated: bool)
    requires buflen <= out.Length
    modifies out
    ensures var c := CopyNarrow(ansiOnly, text, buflen);
      out[..] == Written(old(out[..]), c.text) && bytes == c.bytes && truncated == c.truncated
  {
    if ansiOnly {
      if |text| >= buflen {
        truncated := true;
        if buflen > 0 {
          WriteText(text, buflen - 1, out);
        }
      } else {
        truncated := false;
        WriteText(text, |text|, out);
      }
      bytes := if buflen > 0 then Min(|text|, buflen - 1) else 0;
    } else {
      bytes := if buflen > 0 then Min(|text|, buflen - 1) else 0;
      if bytes > 0 {
        WriteText(text, bytes, out);
      }
      truncated := bytes < |text|;
    }
  }

  lemma TwoCharacters(size: nat, buflen: nat)
    requires (size == 2 || size == 4) && buflen % size == 0 && buflen > size
    ensures buflen / size >= 2
  {
  }

  /** The driver asserts that the length is a multiple of the character size. */
  method CopyUtf8StringToWcharString(size: nat, text: string, out: array<char>, buflen: nat)
    returns (bytes: nat, truncated: bool)
    requires (size == 2 || size == 4) && buflen % size == 0 && buflen / size <= out.Length
    modifies out
    ensures var c := CopyWide(size, text, buflen);
      (c.text.Some? ==> |c.text.value| < out.Length)
      && out[..] == Written(old(out[..]), c.text) && bytes == c.bytes && truncated == c.truncated
  {
    if buflen == 0 {
      return 0, false;
    }
    var converted;
    if buflen > size {
      TwoCharacters(size, buflen);
      converted := Min(|text|, buflen / size - 1);
      WriteText(text, converted, out);
    } else {
      converted := |text|;
    }
    truncated := converted < |text|;
    bytes := converted * size;
  }

  class ApplicationDataBuffer {
    const target: Target
    const buffer: array?<char>
    const buflen: nat
    const hasIndicator: bool
    var reslen: int
    var cellOffset: int

    ghost predicate Valid() {
      && ValidTarget(target) && buflen % CharSize(target) == 0
      && (buffer != null ==> buflen / CharSize(target) <= buffer.Length)
    }

    constructor (target: Target, buffer: array?<char>, buflen: nat, hasIndicator: bool)
      requires ValidTarget(target) && buflen % CharSize(target) == 0
      requires buffer != null ==> buflen / CharSize(target) <= buffer.Length
      ensures Valid() && cellOffset == -1
      ensures this.target == target && this.buffer == buffer
      ensures this.buflen == buflen && this.hasIndicator == hasIndicator
    {
      this.target, this.buffer, this.buflen, this.hasIndicator := target, buffer, buflen, hasIndicator;
      reslen, cellOffset := 0, -1;
    }

    method CopyOut(text: string, out: array<char>) returns (bytes: nat, truncated: bool)
      requires Valid() && out == buffer
      modifies out
      ensures var c := Copy(target, text, buflen);
        (c.text.Some? ==> |c.text.value| < out.Length)
        && out[..] == Written(old(out[..]), c.text) && bytes == c.bytes && truncated == c.truncated
    {
      match target {
        case Narrow(ansiOnly) => bytes, truncated := CopyUtf8StringToSqlCharString(ansiOnly, text, out, buflen);
        case Wide(size) => bytes, truncated := CopyUtf8StringToWcharString(size, text, out, buflen);
      }
    }

    /** What putting a text does: the buffer, the indicator and the offset follow PutStr. */
    twostate predicate Takes(value: string, result: ConversionResult)
      requires Valid()
      reads this, buffer
    {
      if buffer == null then
        result == Converted && cellOffset == old(cellOffset)
        && reslen == if hasIndicator then |value| * CharSize(target) else old(reslen)
      else
        var part := PutStr(target, value, buflen, old(cellOffset));
        && result == part.result && cellOffset == part.offset
        && (part.text.Some? ==> |part.text.value| < buffer.Length)
        && buffer[..] == Written(old(buffer[..]), part.text)
        && reslen == if hasIndicator && part.indicator.Some? then part.indicator.value else old(reslen)
    }

    twostate predicate Untouched()
      reads this, buffer
    {
      cellOffset == old(cellOffset) && (buffer != null ==> buffer[..] == old(buffer[..]))
    }

    /** No data: only the indicator is written. */
    method PutNull() returns (result: ConversionResult)
      modifies this`reslen
      ensures result == if hasIndicator then Converted else IndicatorNeeded
      ensures reslen == if hasIndicator then -1 else old(reslen)
    {
      if !hasIndicator {
        return IndicatorNeeded;
      }
      reslen := -1;
      result := Converted;
    }

    method PutStrToStrBuffer(value: string) returns (result: ConversionResult)
      requires Valid()
      modifies this, buffer
      ensures Takes(value, result)
    {
      var size := CharSize(target);
      var bytesRequired := |value| * size;
      if buffer == null {
        if hasIndicator {
          reslen := bytesRequired;
        }
        return Converted;
      }
      var current := if cellOffset >= 0 then cellOffset else 0;
      if current * size >= bytesRequired {
        return NothingLeft;
      }
      MulMonotone(size, current, |value|);
      var bytesWritten, truncated := CopyOut(value[current..], buffer);
      var total := current * size + bytesWritten;
      if hasIndicator {
        reslen := if bytesRequired - total != 0 then bytesRequired - total else bytesRequired;
      }
      if truncated {
        cellOffset := current + buflen / size - 1;
        return VarlenDataTruncated;
      }
      if cellOffset >= 0 {
        cellOffset := total;
      }
      return Converted;
    }
  }

  function ResultOf(c: ConversionResult): (result: SqlResult)
    ensures result == Success <==> c == Converted
    ensures result == NoData <==> c == NothingLeft
    ensures result == Error <==> c == ConversionFailed
  {
    match c
    case Converted => Success
    case NothingLeft => NoData
    case VarlenDataTruncated => SuccessWithInfo
    case IndicatorNeeded => SuccessWithInfo
    case ConversionFailed => Error
  }

  /**
    After a fetch that leaves the offset alone, the next row's cell is read from its start exactly if
    another column is read, or no part of the row before had been.
  */
  lemma NextCellIsReadWhole(cell: StatementCell, colNum: nat, next: string)
    requires next != ""
    ensures Unread(next, cell.StartOf(colNum)) == next <==> colNum != cell.currentColNum || cell.cellOffset <= 0
  {
  }

  /** The code of a call that has room: whether anything was left before it, and after it. */
  lemma PartSays(t: Target, cell: string, buflen: nat, offset: nat)
    requires ValidTarget(t) && buflen / CharSize(t) >= 2
    ensures
      var part := PutStr(t, cell, buflen, offset);
      ResultOf(part.result)
      == if Unread(cell, offset) == "" then NoData
         else if Unread(cell, part.offset) == "" then Success else SuccessWithInfo
  {
    PartStep(t, cell, buflen, offset);
  }

  /** Three characters of one cell were read; three of the next row's cell are skipped. */
  lemma PartlyReadCellSkips()
    ensures
      var left := PutStr(Narrow(true), "first cell", 4, 0).offset;
      left == 3 && PutStr(Narrow(true), "next", 8, left).text == Some("t")
  {
    assert "next"[3..] == "t" && "t"[..1] == "t";
  }

  /** The part of a statement that remembers where a cell was left. */
  class StatementCell {
    var currentColNum: nat
    var cellOffset: int

    constructor ()
      ensures currentColNum == 0 && cellOffset == 0
    {
      currentColNum, cellOffset := 0, 0;
    }

    /** Where SQLGetData starts: a new column from its first character, the same one where it stopped. */
    function StartOf(colNum: nat): int
      reads this
    {
      if colNum != currentColNum then 0 else cellOffset
    }

    /** SQLFetch moves to a new row and forgets the offset. */
    method FetchRow()
      modifies this`cellOffset
      ensures forall colNum :: StartOf(colNum) == 0
    {
      cellOffset := 0;
    }

    /** SQLGetData on a text cell; the application may leave out the target and the indicator. */
    method GetData(colNum: nat, cell: string, target: Target, buffer: array?<char>, buflen: nat, hasIndicator: bool)
      returns (result: SqlResult, indicator: Option<int>)
      requires ValidTarget(target) && buflen % CharSize(target) == 0
      requires buffer != null ==> buflen / CharSize(target) <= buffer.Length
      modifies this, buffer
      ensures currentColNum == colNum
      ensures buffer == null ==>
        && result == Success && cellOffset == old(StartOf(colNum))
        && indicator == if hasIndicator then Some(|cell| * CharSize(target)) else None
      ensures buffer != null ==>
        var part := PutStr(target, cell, buflen, old(StartOf(colNum)));
        && result == ResultOf(part.result) && cellOffset == part.offset
        && (part.text.Some? ==> |part.text.value| < buffer.Length)
        && buffer[..] == Written(old(buffer[..]), part.text)
        && indicator == if hasIndicator then part.indicator else None
      ensures buffer != null && buflen / CharSize(target) >= 2 && old(StartOf(colNum)) >= 0 ==>
        result == if Unread(cell, old(StartOf(colNum))) == "" then NoData
                  else if Unread(cell, cellOffset) == "" then Success else SuccessWithInfo
    {
      if buffer != null && buflen / CharSize(target) >= 2 && StartOf(colNum) >= 0 {
        PartSays(target, cell, buflen, StartOf(colNum));
      }
      var dataBuffer := new ApplicationDataBuffer(target, buffer, buflen, hasIndicator);
      if colNum != currentColNum {
        currentColNum := colNum;
        cellOffset := 0;
        dataBuffer.cellOffset := 0;
      } else {
        dataBuffer.cellOffset := cellOffset;
      }
      var res := dataBuffer.PutStrToStrBuffer(cell);
      result := ResultOf(res);
      indicator := if hasIndicator && res != NothingLeft then Some(dataBuffer.reslen) else None;
      cellOffset := dataBuffer.cellOffset;
    }
  }

  /** What the application finds after a call that handed out a part: the part, up to its terminator. */
  lemma PartIsFound(t: Target, cell: string, buflen: nat, offset: nat, was: seq<char>)
    requires ValidTarget(t) && buflen / CharSize(t) >= 2 && Segments.Free(cell, '\0')
    requires var text := PutStr(t, cell, buflen, offset).text; text.Some? ==> |text.value| < |was|
    ensures
      var part := PutStr(t, cell, buflen, offset);
      && (part.text.None? <==> ResultOf(part.result) == NoData)
      && part.offset >= 0
      && (part.text.Some? ==> TextUtil.CString(Written(was, part.text)) == part.text.value)
  {
    var part := PutStr(t, cell, buflen, offset);
    PartStep(t, cell, buflen, offset);
    if part.text.Some? {
      var text := part.text.value;
      assert Unread(cell, offset) == cell[offset..];
      assert text == cell[offset..][..|text|];
      TextUtil.CStringOfWritten(text, was[|text| + 1..]);
      TextUtil.CStringKeeps(text);
    }
  }

  /** The buffer length is a number of whole characters that the application's memory has room for. */
  predicate Fits(t: Target, buflen: nat, room: nat)
    requires ValidTarget(t)
  {
    buflen % CharSize(t) == 0 && buflen / CharSize(t) <= room
  }

  /** The remaining parts are the next one and those behind it. */
  lemma NextPart(t: Target, cell: string, buflens: seq<nat>, i: nat, offset: int, parts: seq<Part>)
    requires ValidTarget(t) && i < |buflens| == |parts| && parts[i..] == Parts(t, cell, buflens[i..], offset)
    ensures parts[i] == PutStr(t, cell, buflens[i], offset)
    ensures parts[i + 1..] == Parts(t, cell, buflens[i + 1..], parts[i].offset)
  {
    assert buflens[i..][1..] == buflens[i + 1..];
    assert parts[i..][1..] == parts[i + 1..];
    assert parts[i] == parts[i..][0];
  }

  /** Call i of SQLGetData, and what the application finds in its buffer if something was handed out. */
  method ReadPart(
      reader: StatementCell, colNum: nat, cell: string, target: Target, buffer: array<char>, buflens: seq<nat>,
      i: nat, ghost parts: seq<Part>)
    returns (result: SqlResult, length: Option<int>, found: string)
    requires ValidTarget(target) && i < |buflens| == |parts| && Fits(target, buflens[i], buffer.Length)
    requires parts[i..] == Parts(target, cell, buflens[i..], reader.StartOf(colNum))
    modifies reader, buffer
    ensures parts[i + 1..] == Parts(target, cell, buflens[i + 1..], reader.StartOf(colNum))
    ensures result == ResultOf(parts[i].result) && length == parts[i].indicator
    ensures Roomy(target, buflens) && Segments.Free(cell, '\0') && old(reader.StartOf(colNum)) >= 0 ==>
      reader.StartOf(colNum) >= 0 && found == Handed(parts[i])
  {
    ghost var offset := reader.StartOf(colNum);
    ghost var was := buffer[..];
    NextPart(target, cell, buflens, i, offset, parts);
    result, length := reader.GetData(colNum, cell, target, buffer, buflens[i], true);
    found := if result == NoData then "" else TextUtil.CString(buffer[..]);
    if Roomy(target, buflens) && Segments.Free(cell, '\0') && offset >= 0 {
      PartIsFound(target, cell, buflens[i], offset, was);
    }
  }

  /** Results and lengths so far are those of the first parts. */
  predicate Reported(results: seq<SqlResult>, lengths: seq<Option<int>>, parts: seq<Part>) {
    && |results| == |lengths| <= |parts|
    && forall i | 0 <= i < |results| :: results[i] == ResultOf(parts[i].result) && lengths[i] == parts[i].indicator
  }

  lemma ReportedNext(results: seq<SqlResult>, lengths: seq<Option<int>>, parts: seq<Part>, i: nat)
    requires Reported(results, lengths, parts) && |results| == i < |parts|
    ensures Reported(results + [ResultOf(parts[i].result)], lengths + [parts[i].indicator], parts)
  {
  }

  predicate Found(found: seq<string>, parts: seq<Part>) {
    |found| <= |parts| && forall i | 0 <= i < |found| :: found[i] == Handed(parts[i])
  }

  /**
    What a read in parts looks like to the application: parts of the text, from left to right, each with a
    warning as long as more is to come and with success when nothing is; then "no data" for ever.
  */
  predicate ReadOut(unread: string, results: seq<SqlResult>, found: seq<string>)
    decreases |results|
  {
    |results| == |found|
    && (results == []
        || if unread == "" then results[0] == NoData && found[0] == "" && ReadOut("", results[1..], found[1..])
           else
             && found[0] != "" && found[0] <= unread
             && var rest := unread[|found[0]|..];
                results[0] == (if rest == "" then Success else SuccessWithInfo)
                && ReadOut(rest, results[1..], found[1..]))
  }

  lemma {:induction false} PartsAreReadOut(
      parts: seq<Part>, unread: string, results: seq<SqlResult>, lengths: seq<Option<int>>, found: seq<string>)
    requires InOrder(parts, unread) && |results| == |found| == |parts|
    requires Reported(results, lengths, parts) && Found(found, parts)
    ensures ReadOut(unread, results, found) && Flatten(found) == TextOf(parts)
    decreases |parts|
  {
    if parts != [] {
      var p := parts[0];
      var rest := if unread == "" then "" else unread[|p.text.value|..];
      PartsAreReadOut(parts[1..], rest, results[1..], lengths[1..], found[1..]);
    }
  }

  lemma CellIsReadOut(
      t: Target, cell: string, buflens: seq<nat>, results: seq<SqlResult>, lengths: seq<Option<int>>,
      found: seq<string>)
    requires ValidTarget(t) && Roomy(t, buflens)
    requires
      var parts := Parts(t, cell, buflens, 0);
      |results| == |found| == |parts| && Reported(results, lengths, parts) && Found(found, parts)
    ensures ReadOut(cell, results, found) && (|buflens| >= |cell| ==> Flatten(found) == cell)
  {
    PartsMakeTheCell(t, cell, buflens, 0);
    assert Unread(cell, 0) == cell;
    PartsAreReadOut(Parts(t, cell, buflens, 0), cell, results, lengths, found);
  }

  /**
    An application that reads a cell in parts: it calls SQLGetData once for each buffer length, and keeps
    what it finds in its buffer after each call that handed out something.
  */
  method ReadInParts(
      reader: StatementCell, colNum: nat, cell: string, target: Target, buffer: array<char>, buflens: seq<nat>)
    returns (results: seq<SqlResult>, lengths: seq<Option<int>>, found: seq<string>)
    requires ValidTarget(target) && reader.StartOf(colNum) == 0
    requires forall buflen | buflen in buflens :: Fits(target, buflen, buffer.Length)
    modifies reader, buffer
    ensures var parts := Parts(target, cell, buflens, 0);
      |results| == |found| == |parts| && Reported(results, lengths, parts)
    ensures Roomy(target, buflens) && Segments.Free(cell, '\0') ==>
      ReadOut(cell, results, found) && (|buflens| >= |cell| ==> Flatten(found) == cell)
  {
    results, lengths, found := [], [], [];
    ghost var parts := Parts(target, cell, buflens, 0);
    ghost var clean := Roomy(target, buflens) && Segments.Free(cell, '\0');
    for i := 0 to |buflens|
      invariant |results| == |found| == i && Reported(results, lengths, parts)
      invariant parts[i..] == Parts(target, cell, buflens[i..], reader.StartOf(colNum))
      invariant clean ==> reader.StartOf(colNum) >= 0 && Found(found, parts)
    {
      var result, length, part := ReadPart(reader, colNum, cell, target, buffer, buflens, i, parts);
      ReportedNext(results, lengths, parts, i);
      results := results + [result];
      lengths := lengths + [length];
      found := found + [part];
    }
    if clean {
      CellIsReadOut(target, cell, buflens, results, lengths, found);
    }
  }
}
