/** The cursor over the rows of one page, with its lazily discovered columns. */
module TimestreamCursorModel {
  import opened ResultPages
  import opened PagingProtocol

  class TimestreamCursor {
    const rowVec: seq<Row>
    const columnCount: nat
    var rowIndex: nat
    var curPos: nat
    var columns: seq<nat>

    ghost function View(): Cursor
      reads this
    {
      Cursor(rowVec, curPos)
    }

    /** The row index trails the position by one and stops at the end; columns are found left to right. */
    ghost predicate Valid()
      reads this
    {
      && rowIndex == (if curPos == 0 then 0 else if curPos <= |rowVec| then curPos - 1 else |rowVec|)
      && |columns| <= columnCount
      && forall i | 0 <= i < |columns| :: columns[i] == i
    }

    constructor (rows: seq<Row>, columnCount: nat)
      ensures Valid() && View() == Cursor(rows, 0)
      ensures this.columnCount == columnCount && columns == []
    {
      rowVec := rows;
      this.columnCount := columnCount;
      rowIndex := 0;
      curPos := 0;
      columns := [];
    }

    method Increment() returns (more: bool)
      requires Valid()
      modifies this`rowIndex, this`curPos
      ensures Valid() && View() == old(View()).(curPos := old(curPos) + 1)
      ensures more == (curPos <= |rowVec|)
      ensures more ==> rowVec[rowIndex] == rowVec[old(curPos)]
    {
      if curPos > 0 && rowIndex < |rowVec| {
        rowIndex := rowIndex + 1;
      }
      curPos := curPos + 1;
      more := curPos <= |rowVec|;
    }

    /** In a page with rows it says exactly whether the row index is on a row. */
    method HasData() returns (has: bool)
      requires Valid()
      ensures has && rowVec != [] <==> rowIndex < |rowVec|
      ensures rowVec == [] ==> (has <==> curPos == 0)
    {
      has := curPos <= |rowVec|;
    }

    /** Discovers the columns up to columnIdx; fails exactly when there is no such column. */
    method EnsureColumnDiscovered(columnIdx: nat) returns (ok: bool)
      requires Valid()
      modifies this`columns
      ensures Valid() && old(columns) <= columns
      ensures ok <==> 1 <= columnIdx <= columnCount
      ensures ok ==> columnIdx <= |columns|
      ensures columns == if ok && |old(columns)| < columnIdx then seq(columnIdx, i => i) else old(columns)
    {
      if columnIdx > columnCount || columnIdx < 1 {
        return false;
      }
      if |columns| == columnCount {
        return true;
      }
      var index := |columns|;
      while index < columnIdx
        invariant Valid() && index == |columns| && old(columns) <= columns
        invariant index <= if |old(columns)| < columnIdx then columnIdx else |old(columns)|
      {
        columns := columns + [index];
        index := index + 1;
      }
      return true;
    }
  }
}
