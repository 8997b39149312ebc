/**
  Nested values as text: arrays, rows and time series, whose elements go through temporary buffers.

  A column that is not of a scalar type is read as text, so a scalar inside a nested value is put as
  it is. Texts are ASCII.
*/
module NestedValues {
  import opened OdbcTypes
  import opened TextUtil
  import opened Segments
  import opened ChunkedRead
  import opened ApplicationBuffers

  const BUFFER_SIZE: nat := 1024

  /** A value as the service sends it: each alternative with the flag that says it has been set. */
  datatype Datum = Datum(
    scalarSet: bool, scalar: string,
    seriesSet: bool, series: seq<Point>,
    arraySet: bool, arrayData: seq<Datum>,
    rowSet: bool, rowDataSet: bool, rowData: seq<Datum>,
    nullSet: bool)

  datatype Point = Point(timeSet: bool, time: string, valueSet: bool, value: Datum)

  // What is put for a value

  datatype Rendering = Puts(text: string) | PutsNull | PutsNothing(result: ConversionResult)

  function TextOf(rendering: Rendering): string {
    if rendering.Puts? then rendering.text else ""
  }

  /** What a temporary buffer leaves of a text. */
  function Cut(text: string): string {
    CString(text[..Min(|text|, BUFFER_SIZE - 1)])
  }

  function Commas(texts: seq<string>): string {
    if texts == [] then "" else Join(texts, ',')
  }

  /** The text of an element inside another value. */
  function Element(datum: Datum, bounded: bool): string
    decreases datum, 1
  {
    var text := TextOf(Render(datum, bounded));
    if bounded then Cut(text) else text
  }

  function PointText(point: Point, bounded: bool): string {
    "{time: " + (if point.timeSet then point.time else "")
    + ", value: " + (if point.valueSet then Element(point.value, bounded) else "") + "}"
  }

  function Elements(data: seq<Datum>, bounded: bool): (texts: seq<string>)
  {
    seq(|data|, i requires 0 <= i < |data| => Element(data[i], bounded))
  }

  function Points(points: seq<Point>, bounded: bool): (texts: seq<string>)
  {
    seq(|points|, i requires 0 <= i < |points| => PointText(points[i], bounded))
  }

  /** Brackets around the comma-joined texts of the elements; the first alternative that is set counts. */
  function Render(datum: Datum, bounded: bool): Rendering
    decreases datum, 0
  {
    if datum.scalarSet then Puts(datum.scalar)
    else if datum.seriesSet then Puts("[" + Commas(Points(datum.series, bounded)) + "]")
    else if datum.arraySet then
      Puts(if datum.arrayData == [] then "" else "[" + Commas(Elements(datum.arrayData, bounded)) + "]")
    else if datum.rowSet then
      if datum.rowDataSet then Puts("(" + Commas(Elements(datum.rowData, bounded)) + ")")
      else PutsNothing(NothingLeft)
    else if datum.nullSet then PutsNull
    else PutsNothing(ConversionFailed)
  }

  // The renderers

  /** Every text with a comma behind it: what the loops build before the last comma is taken away. */
  function Trailed(texts: seq<string>): string {
    if texts == [] then "" else Trailed(texts[..|texts| - 1]) + texts[|texts| - 1] + ","
  }

  lemma {:induction false} TrailedFirst(first: string, rest: seq<string>)
    ensures Trailed([first] + rest) == first + "," + Trailed(rest)
    decreases |rest|
  {
    if rest == [] {
      assert Trailed([first] + rest) == Trailed([]) + first + ",";
    } else {
      var n := |rest| - 1;
      TrailedFirst(first, rest[..n]);
      assert ([first] + rest)[..n + 1] == [first] + rest[..n];
    }
  }

  lemma {:induction false} TrailedIsJoined(texts: seq<string>)
    requires texts != []
    ensures Trailed(texts) == Commas(texts) + ","
  {
    TrailedFirst(texts[0], texts[1..]);
    assert texts == [texts[0]] + texts[1..];
    if |texts| > 1 {
      TrailedIsJoined(texts[1..]);
    }
  }

  lemma TrailedNext(open: string, texts: seq<string>, i: nat)
    requires i < |texts|
    ensures open + Trailed(texts[..i + 1]) == open + Trailed(texts[..i]) + texts[i] + ","
  {
    assert texts[..i + 1][..i] == texts[..i];
  }

  lemma TrailedStart(open: string, texts: seq<string>)
    ensures open + Trailed(texts[..0]) == open && texts[..|texts|] == texts
  {
  }

  /** Taking the last comma away, if there was an element, leaves the texts joined by commas. */
  lemma PopBack(open: string, texts: seq<string>)
    requires texts != []
    ensures (open + Trailed(texts))[..|open + Trailed(texts)| - 1] == open + Commas(texts)
  {
    TrailedIsJoined(texts);
  }

  /**
    The receiver of a value: text is put, null sets the indicator if there is one and always succeeds,
    and nothing leaves it alone.
  */
  twostate predicate Received(dataBuf: ApplicationDataBuffer, rendering: Rendering, result: ConversionResult)
    requires dataBuf.Valid()
    reads dataBuf, dataBuf.buffer
  {
    match rendering
    case Puts(text) => dataBuf.Takes(text, result)
    case PutsNull =>
      dataBuf.Untouched() && result == Converted
      && dataBuf.reslen == if dataBuf.hasIndicator then -1 else old(dataBuf.reslen)
    case PutsNothing(r) => result == r && dataBuf.Untouched() && dataBuf.reslen == old(dataBuf.reslen)
  }

  /** What a zeroed temporary buffer holds after a text was put into it. */
  lemma BufferHoldsCut(ansiOnly: bool, text: string, memory: seq<char>)
    requires |memory| == BUFFER_SIZE && memory[0] == '\0'
    ensures
      var part := PutStr(Narrow(ansiOnly), text, BUFFER_SIZE, -1);
      && (part.text.Some? ==> |part.text.value| < BUFFER_SIZE)
      && CString(Written(memory, part.text)) == Cut(text)
  {
    var part := PutStr(Narrow(ansiOnly), text, BUFFER_SIZE, -1);
    assert text[0..] == text;
    if part.text.Some? {
      CStringOfWritten(part.text.value, memory[|part.text.value| + 1..]);
    }
  }

  /** An element is rendered into a zeroed buffer of its own, and read back as a C string. */
  method ElementText(ansiOnly: bool, datum: Datum) returns (text: string)
    ensures text == Element(datum, true)
    decreases datum, 3
  {
    var buf := new char[BUFFER_SIZE](i => '\0');
    var tmpBuf := new ApplicationDataBuffer(Narrow(ansiOnly), buf, BUFFER_SIZE, true);
    ghost var memory := buf[..];
    var result := ParseDatum(ansiOnly, datum, tmpBuf);
    BufferHoldsCut(ansiOnly, TextOf(Render(datum, true)), memory);
    text := CString(buf[..]);
  }

  method ParseDatum(ansiOnly: bool, datum: Datum, dataBuf: ApplicationDataBuffer)
    returns (result: ConversionResult)
    requires dataBuf.Valid()
    modifies dataBuf, dataBuf.buffer
    ensures Received(dataBuf, Render(datum, true), result)
    decreases datum, 2
  {
    if datum.scalarSet {
      result := dataBuf.PutStrToStrBuffer(datum.scalar);
    } else if datum.seriesSet {
      result := ParseTimeSeriesType(ansiOnly, datum, dataBuf);
    } else if datum.arraySet {
      result := ParseArrayType(ansiOnly, datum, dataBuf);
    } else if datum.rowSet {
      result := ParseRowType(ansiOnly, datum, dataBuf);
    } else if datum.nullSet {
      var _ := dataBuf.PutNull();
      result := Converted;
    } else {
      result := ConversionFailed;
    }
  }

  method AppendPoint(ansiOnly: bool, point: Point, result: string) returns (text: string)
    ensures text == result + PointText(point, true) + ","
    decreases point, 4
  {
    text := "{time: ";
    if point.timeSet {
      text := text + point.time;
    }
    text := text + ", value: ";
    if point.valueSet {
      var element := ElementText(ansiOnly, point.value);
      text := text + element;
    }
    text := text + "}";
    text := result + text + ",";
  }

  /** The loop over a time series: every point followed by a comma. */
  method AppendPoints(ansiOnly: bool, datum: Datum, open: string) returns (text: string)
    ensures text == open + Trailed(Points(datum.series, true))
    decreases datum, 0
  {
    ghost var texts := Points(datum.series, true);
    text := open;
    TrailedStart(open, texts);
    var i: nat := 0;
    while i < |datum.series|
      invariant i <= |datum.series| && text == open + Trailed(texts[..i])
    {
      TrailedNext(open, texts, i);
      text := AppendPoint(ansiOnly, datum.series[i], text);
      i := i + 1;
    }
  }

  method ParseTimeSeriesType(ansiOnly: bool, datum: Datum, dataBuf: ApplicationDataBuffer)
    returns (result: ConversionResult)
    requires dataBuf.Valid()
    modifies dataBuf, dataBuf.buffer
    ensures dataBuf.Takes("[" + Commas(Points(datum.series, true)) + "]", result)
    decreases datum, 1
  {
    var text := AppendPoints(ansiOnly, datum, "[");
    if datum.series != [] {
      PopBack("[", Points(datum.series, true));
      text := text[..|text| - 1];
    }
    text := text + "]";
    result := dataBuf.PutStrToStrBuffer(text);
  }

  /** The elements of an array or of a row. */
  function Data(datum: Datum): seq<Datum> {
    if datum.arraySet then datum.arrayData else datum.rowData
  }

  /** The loop of both: every element followed by a comma. */
  method AppendElements(ansiOnly: bool, datum: Datum, open: string) returns (text: string)
    ensures text == open + Trailed(Elements(Data(datum), true))
    decreases datum, 0
  {
    var data := Data(datum);
    ghost var texts := Elements(data, true);
    text := open;
    TrailedStart(open, texts);
    var i: nat := 0;
    while i < |data|
      invariant i <= |data| && text == open + Trailed(texts[..i])
    {
      var element := ElementText(ansiOnly, data[i]);
      TrailedNext(open, texts, i);
      text := text + element;
      text := text + ",";
      i := i + 1;
    }
  }

  method ParseArrayType(ansiOnly: bool, datum: Datum, dataBuf: ApplicationDataBuffer)
    returns (result: ConversionResult)
    requires dataBuf.Valid() && datum.arraySet
    modifies dataBuf, dataBuf.buffer
    ensures dataBuf.Takes(
      if datum.arrayData == [] then "" else "[" + Commas(Elements(datum.arrayData, true)) + "]", result)
    decreases datum, 1
  {
    var text := "";
    if datum.arrayData != [] {
      text := AppendElements(ansiOnly, datum, "[");
      PopBack("[", Elements(datum.arrayData, true));
      text := text[..|text| - 1];
      text := text + "]";
    }
    result := dataBuf.PutStrToStrBuffer(text);
  }

  method ParseRowType(ansiOnly: bool, datum: Datum, dataBuf: ApplicationDataBuffer)
    returns (result: ConversionResult)
    requires dataBuf.Valid() && !datum.arraySet
    modifies dataBuf, dataBuf.buffer
    ensures if datum.rowDataSet then dataBuf.Takes("(" + Commas(Elements(datum.rowData, true)) + ")", result)
            else result == NothingLeft && dataBuf.Untouched() && dataBuf.reslen == old(dataBuf.reslen)
    decreases datum, 1
  {
    if !datum.rowDataSet {
      return NothingLeft;
    }
    var text := AppendElements(ansiOnly, datum, "(");
    if datum.rowData != [] {
      PopBack("(", Elements(datum.rowData, true));
      text := text[..|text| - 1];
    }
    text := text + ")";
    result := dataBuf.PutStrToStrBuffer(text);
  }

  // When the bound makes no difference

  /** A text that a temporary buffer holds whole. */
  predicate Kept(text: string) {
    |text| < BUFFER_SIZE && Free(text, '\0')
  }

  /** Every value below this one has a text that is kept whole. */
  predicate AllKept(datum: Datum)
    decreases datum, 0
  {
    if datum.scalarSet then true
    else if datum.seriesSet then
      forall i | 0 <= i < |datum.series| :: datum.series[i].valueSet ==> ElementKept(datum.series[i].value)
    else if datum.arraySet then forall i | 0 <= i < |datum.arrayData| :: ElementKept(datum.arrayData[i])
    else if datum.rowSet && datum.rowDataSet then forall i | 0 <= i < |datum.rowData| :: ElementKept(datum.rowData[i])
    else true
  }

  predicate ElementKept(datum: Datum)
    decreases datum, 1
  {
    AllKept(datum) && Kept(Element(datum, false))
  }

  lemma CutKeeps(text: string)
    ensures |Cut(text)| <= |text| && (|Cut(text)| == |text| <==> Kept(text)) && (Kept(text) ==> Cut(text) == text)
  {
    var n := Min(|text|, BUFFER_SIZE - 1);
    CStringKeeps(text[..n]);
    if |text| < BUFFER_SIZE {
      assert text[..n] == text;
    }
  }

  lemma {:induction false} CommasShrink(short: seq<string>, long: seq<string>)
    requires |short| == |long| && forall i | 0 <= i < |short| :: |short[i]| <= |long[i]|
    ensures |Commas(short)| <= |Commas(long)|
    ensures (exists i :: 0 <= i < |short| && |short[i]| < |long[i]|) ==> |Commas(short)| < |Commas(long)|
  {
    if |short| > 1 {
      CommasShrink(short[1..], long[1..]);
      assert short[1..] != [] && long[1..] != [];
      if i :| 0 <= i < |short| && |short[i]| < |long[i]| {
        assert i > 0 ==> short[1..][i - 1] == short[i] && long[1..][i - 1] == long[i];
      }
    }
  }

  /** An element is shorter when it is bounded, unless everything in it is kept. */
  lemma {:induction false} ElementShrinks(datum: Datum)
    ensures |Element(datum, true)| <= |Element(datum, false)|
    ensures ElementKept(datum) ==> Element(datum, true) == Element(datum, false)
    ensures !ElementKept(datum) ==> |Element(datum, true)| < |Element(datum, false)|
    decreases datum, 2
  {
    RenderShrinks(datum);
    CutKeeps(TextOf(Render(datum, true)));
  }

  lemma {:induction false} ElementsShrink(datum: Datum, data: seq<Datum>)
    requires data == datum.arrayData || data == datum.rowData
    ensures
      var short, long := Commas(Elements(data, true)), Commas(Elements(data, false));
      if forall i | 0 <= i < |data| :: ElementKept(data[i]) then short == long else |short| < |long|
    decreases datum, 0
  {
    forall i | 0 <= i < |data|
      ensures |Element(data[i], true)| <= |Element(data[i], false)|
      ensures ElementKept(data[i]) ==> Element(data[i], true) == Element(data[i], false)
      ensures !ElementKept(data[i]) ==> |Element(data[i], true)| < |Element(data[i], false)|
    {
      ElementShrinks(data[i]);
    }
    var short, long := Elements(data, true), Elements(data, false);
    CommasShrink(short, long);
    if forall i | 0 <= i < |data| :: ElementKept(data[i]) {
      assert short == long;
    } else {
      var i :| 0 <= i < |data| && !ElementKept(data[i]);
      assert |short[i]| < |long[i]|;
    }
  }

  lemma PointShrinks(point: Point)
    requires point.valueSet ==>
      var short, long := Element(point.value, true), Element(point.value, false);
      |short| <= |long| && (if ElementKept(point.value) then short == long else |short| < |long|)
    ensures
      var short, long := PointText(point, true), PointText(point, false);
      |short| <= |long|
      && (if point.valueSet ==> ElementKept(point.value) then short == long else |short| < |long|)
  {
  }

  lemma {:induction false} PointsShrink(datum: Datum)
    ensures
      var points := datum.series;
      var short, long := Commas(Points(points, true)), Commas(Points(points, false));
      if forall i | 0 <= i < |points| :: points[i].valueSet ==> ElementKept(points[i].value)
      then short == long else |short| < |long|
    decreases datum, 0
  {
    var points := datum.series;
    forall i | 0 <= i < |points|
      ensures |PointText(points[i], true)| <= |PointText(points[i], false)|
      ensures if points[i].valueSet ==> ElementKept(points[i].value)
              then PointText(points[i], true) == PointText(points[i], false)
              else |PointText(points[i], true)| < |PointText(points[i], false)|
    {
      if points[i].valueSet {
        ElementShrinks(points[i].value);
      }
      PointShrinks(points[i]);
    }
    var short, long := Points(points, true), Points(points, false);
    CommasShrink(short, long);
    if forall i | 0 <= i < |points| :: points[i].valueSet ==> ElementKept(points[i].value) {
      assert short == long;
    } else {
      var i :| 0 <= i < |points| && !(points[i].valueSet ==> ElementKept(points[i].value));
      assert |short[i]| < |long[i]|;
    }
  }

  lemma {:induction false} RenderShrinks(datum: Datum)
    ensures
      var short, long := Render(datum, true), Render(datum, false);
      if AllKept(datum) then short == long else |TextOf(short)| < |TextOf(long)|
    decreases datum, 1
  {
    if datum.scalarSet {
    } else if datum.seriesSet {
      PointsShrink(datum);
    } else if datum.arraySet {
      ElementsShrink(datum, datum.arrayData);
    } else if datum.rowSet && datum.rowDataSet {
      ElementsShrink(datum, datum.rowData);
    }
  }

  /** The bound, in characters: a temporary buffer keeps all but its last byte. */
  lemma CutSays(text: string)
    requires Free(text, '\0')
    ensures Cut(text) == if |text| <= 1023 then text else text[..1023]
  {
    CStringKeeps(text[..Min(|text|, 1023)]);
    assert |text| <= 1023 ==> text[..|text|] == text;
  }

  // The place of every part in its text

  /** Text i stands behind the texts before it, each with its comma, and in front of the others. */
  lemma {:induction false} TextStands(texts: seq<string>, i: nat)
    requires i < |texts|
    ensures Commas(texts)
         == Trailed(texts[..i]) + texts[i] + (if i + 1 < |texts| then "," + Commas(texts[i + 1..]) else "")
    decreases i
  {
    if i == 0 {
      assert texts[..0] == [];
    } else {
      TextStands(texts[1..], i - 1);
      TrailedFirst(texts[0], texts[1..][..i - 1]);
      assert texts[..i] == [texts[0]] + texts[1..][..i - 1];
      assert texts[1..][i - 1 + 1..] == texts[i + 1..];
      var rest := if i + 1 < |texts| then "," + Commas(texts[i + 1..]) else "";
      assert Commas(texts) == texts[0] + [','] + Commas(texts[1..]);
      Regroup(texts[0] + ",", Trailed(texts[1..][..i - 1]), texts[i], rest);
    }
  }

  lemma Regroup(a: string, b: string, c: string, d: string)
    ensures a + (b + c + d) == a + b + c + d
  {
  }

  /** Exactly one alternative of a value is set. */
  predicate Only(datum: Datum, scalar: bool, series: bool, array_: bool, row: bool) {
    datum.scalarSet == scalar && datum.seriesSet == series && datum.arraySet == array_ && datum.rowSet == row
  }

  /** What stands around the texts of the elements, for each kind of value. */
  lemma RenderingSays(datum: Datum, bounded: bool)
    ensures Only(datum, true, false, false, false) ==> Render(datum, bounded) == Puts(datum.scalar)
    ensures Only(datum, false, true, false, false) ==>
      Render(datum, bounded) == Puts("[" + Commas(Points(datum.series, bounded)) + "]")
    ensures Only(datum, false, false, true, false) && datum.arrayData == [] ==> Render(datum, bounded) == Puts("")
    ensures Only(datum, false, false, true, false) && datum.arrayData != [] ==>
      Render(datum, bounded) == Puts("[" + Commas(Elements(datum.arrayData, bounded)) + "]")
    ensures Only(datum, false, false, false, true) && datum.rowDataSet ==>
      Render(datum, bounded) == Puts("(" + Commas(Elements(datum.rowData, bounded)) + ")")
    ensures Only(datum, false, false, false, false) && datum.nullSet ==>
      Render(datum, bounded) == PutsNull && Element(datum, bounded) == ""
  {
  }

  /** Element i of an array stands in its brackets between the elements before and behind it. */
  lemma ArrayElementStands(datum: Datum, bounded: bool, i: nat)
    requires Only(datum, false, false, true, false) && i < |datum.arrayData|
    ensures
      var texts := Elements(datum.arrayData, bounded);
      && texts[i] == Element(datum.arrayData[i], bounded)
      && Render(datum, bounded)
         == Puts("[" + (Trailed(texts[..i]) + texts[i]
                        + (if i + 1 < |texts| then "," + Commas(texts[i + 1..]) else "")) + "]")
  {
    RenderingSays(datum, bounded);
    TextStands(Elements(datum.arrayData, bounded), i);
  }

  lemma RowElementStands(datum: Datum, bounded: bool, i: nat)
    requires Only(datum, false, false, false, true) && datum.rowDataSet && i < |datum.rowData|
    ensures
      var texts := Elements(datum.rowData, bounded);
      && texts[i] == Element(datum.rowData[i], bounded)
      && Render(datum, bounded)
         == Puts("(" + (Trailed(texts[..i]) + texts[i]
                        + (if i + 1 < |texts| then "," + Commas(texts[i + 1..]) else "")) + ")")
  {
    RenderingSays(datum, bounded);
    TextStands(Elements(datum.rowData, bounded), i);
  }

  /** A point is its time and then its value, each under its name; what is not set is left empty. */
  lemma PointSays(point: Point, bounded: bool)
    ensures point.timeSet && point.valueSet ==>
      PointText(point, bounded) == "{time: " + point.time + ", value: " + Element(point.value, bounded) + "}"
    ensures point.timeSet && !point.valueSet ==> PointText(point, bounded) == "{time: " + point.time + ", value: }"
    ensures !point.timeSet && point.valueSet ==>
      PointText(point, bounded) == "{time: , value: " + Element(point.value, bounded) + "}"
    ensures !point.timeSet && !point.valueSet ==> PointText(point, bounded) == "{time: , value: }"
  {
    assert "{time: " + "" + ", value: " == "{time: , value: ";
  }

  /** Point i of a time series stands in its brackets between the points before and behind it. */
  lemma PointStands(datum: Datum, bounded: bool, i: nat)
    requires Only(datum, false, true, false, false) && i < |datum.series|
    ensures
      var texts := Points(datum.series, bounded);
      && texts[i] == PointText(datum.series[i], bounded)
      && Render(datum, bounded)
         == Puts("[" + (Trailed(texts[..i]) + texts[i]
                        + (if i + 1 < |texts| then "," + Commas(texts[i + 1..]) else "")) + "]")
  {
    RenderingSays(datum, bounded);
    TextStands(Points(datum.series, bounded), i);
  }

  /** The bounded rendering is the whole rendering exactly when no value below the top reaches the limit. */
  lemma BoundedIsWholeExactly(datum: Datum)
    ensures Render(datum, true) == Render(datum, false) <==> AllKept(datum)
  {
    RenderShrinks(datum);
  }
}
