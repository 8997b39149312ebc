/**
  DataQuery as the driver writes it: fields updated step by step by Execute, FetchNextRow and Close.

  Every method is proved to be a run of the paging protocol: the ghost field s is the protocol state
  the object is in, Valid ties the object's fields to it and says that it is reachable, so what is
  proved of all interleavings holds of the object. Where a method waits, the background thread is run
  until the wait is over.
*/
module DataQueryModel {
  import opened OdbcTypes
  import opened ResultPages
  import opened PagingProtocol
  import opened PagingSafety
  import opened PagingLiveness
  import opened PagingTheorems
  import opened TimestreamCursorModel

  function CodeOf(answer: Answer): SqlResult {
    match answer
    case Fetched(_) => Success
    case Unreadable(_) => Error
    case NoMore => NoData
    case Failed => Error
  }

  lemma IdleOnPage(server: Server, s: State)
    requires Control(server, s) && s.pc == Idle && s.cursor.Some? && !Starved(server, s)
    ensures OnPage(server, s)
  {
  }

  /** Moving past the end of a page does not starve the query. */
  lemma AdvanceKeepsFed(server: Server, readable: Reader, s: State)
    requires Reachable(server, readable, s) && s.pc == Idle && s.cursor.Some? && !Starved(server, s)
    ensures !Starved(server, ApplyCallFetch(readable, s))
  {
    ReachableKeeps(server, readable, s);
    IdleOnPage(server, s);
    OnPageIsFed(server, ApplyCallFetch(readable, s));
  }

  /** A cursor is only ever made over a page with rows. */
  lemma CursorHasRows(server: Server, readable: Reader, s: State)
    requires Reachable(server, readable, s) && s.pc == Idle && s.cursor.Some?
    ensures s.cursor.value.curPos <= |s.cursor.value.rows| ==> s.cursor.value.rows != []
  {
    ReachableKeeps(server, readable, s);
  }

  /** What Execute says once it has taken k outcomes. */
  function ExecuteCode(server: Server, k: nat): SqlResult
    requires k > 0
  {
    if RowsBefore(server, k) != [] then Success
    else if OutcomeAt(server, k - 1).Failure? then Error
    else NoData
  }

  /** The code of an outcome that ends Execute. */
  function OutcomeCode(o: Outcome): SqlResult {
    if o.Failure? then Error else if o.rows == [] then NoData else Success
  }

  /** The outcome of one round is the next one of the chain, and only empty pages came before it. */
  lemma FirstOutcome(server: Server, readable: Reader, n: nat, s: State)
    requires Reachable(server, readable, s) && s.pc == Executing && ExecuteEnds(server, n)
    ensures s.taken < n
    ensures server(s.request) == OutcomeAt(server, s.taken)
    ensures ExecuteCode(server, s.taken + 1) == OutcomeCode(server(s.request))
  {
    ReachableKeeps(server, readable, s);
    ExecutingEnds(server, n, s);
  }

  /** How one round leaves the query. */
  lemma RoundTells(server: Server, s: State, s': State)
    requires s.pc == Executing && s.cursor.None? && !s.isClosing && s' == ApplyQueryFirst(server, s)
    ensures s'.taken == s.taken + 1 && s'.answers == s.answers
    ensures var o := server(s.request);
      if OutcomeCode(o) == NoData && o.next != NO_TOKEN then s'.pc == Executing && s'.cursor.None? && !s'.isClosing
      else s'.pc == Idle && (s'.cursor.Some? <==> OutcomeCode(o) == Success)
           && (s'.isClosing <==> OutcomeCode(o) == Error)
  {
  }

  /** What Execute says of a finite chain. */
  lemma ExecuteTells(server: Server, readable: Reader, n: nat, s: State)
    requires ChainOf(server, n) && Reachable(server, readable, s) && s.taken > 0
    requires ExecuteCode(server, s.taken) == Success || !Continues(server, s.taken - 1)
    ensures ExecuteCode(server, s.taken) == ExecuteCode(server, n)
  {
    TakenWithinChain(server, readable, n, s);
    if ExecuteCode(server, s.taken) == Success {
      RowsBeforeGrows(server, s.taken, n);
    } else {
      AtTheEndOfTheChain(server, n, s.taken);
    }
  }

  /** A cursor beyond its page has no row to read. */
  predicate OffRows(cursor: Option<Cursor>) {
    cursor.Some? ==> cursor.value.curPos > |cursor.value.rows|
  }

  lemma WaitingIsOffRows(server: Server, readable: Reader, s: State)
    requires Reachable(server, readable, s) && s.pc == Waiting(false)
    ensures OffRows(s.cursor)
  {
    ReachableKeeps(server, readable, s);
  }

  /** What taking the queued outcome tells. */
  lemma TakeTells(readable: Reader, s: State, s': State)
    requires s.queue != [] && s' == ApplyTake(readable, s)
    ensures match s.queue[0]
      case Failure => s'.pc == Idle && s'.answers == s.answers + [Failed]
      case Page(rows, next) =>
        if rows == [] then s'.pc == Idle && s'.answers == s.answers + [NoMore]
        else if next == NO_TOKEN then s'.pc == Idle && s'.answers == s.answers + [Give(readable, rows[0])]
        else s'.pc == Joining(next) && s'.answers == s.answers
    ensures var o := s.queue[0];
      s'.cursor == if o.Failure? then None else if o.rows == [] then s.cursor else Some(Cursor(o.rows, 1))
  {
  }

  class DataQuery {
    const server: Server
    const readable: Reader
    const columnCount: nat

    var request: Token
    var cursor: TimestreamCursor?
    var hasAsyncFetch: bool
    var threads: seq<ThreadPc>
    var queue: seq<Outcome>
    var isClosing: bool
    var rowCounter: nat

    ghost var s: State

    ghost predicate Valid()
      reads this, cursor
    {
      && s.request == request && s.hasAsyncFetch == hasAsyncFetch && s.isClosing == isClosing
      && s.threads == threads && s.queue == queue
      && s.cursor == (if cursor == null then None else Some(cursor.View()))
      && (cursor != null ==> cursor.Valid() && cursor.columnCount == columnCount)
      && Reachable(server, readable, s)
    }

    constructor (server: Server, readable: Reader, columnCount: nat)
      ensures Valid() && s == INIT && rowCounter == 0 && cursor == null
      ensures this.server == server && this.readable == readable
    {
      this.server, this.readable, this.columnCount := server, readable, columnCount;
      request, cursor, hasAsyncFetch, threads, queue, isClosing := NO_TOKEN, null, false, [], [], false;
      rowCounter := 0;
      s := INIT;
      new;
      assert After(server, readable, INIT, []) == INIT;
    }

    /** One step of AsyncFetchOnePage in the oldest thread. */
    method RunThread()
      requires Valid() && threads != [] && threads[0] != Exited && s.pc != Waiting(true)
      modifies this`threads, this`queue, this`s
      ensures Valid() && |threads| == |old(threads)|
      ensures s == old(s).(threads := threads, queue := queue, sent := s.sent)
      ensures Rank(0, s) < old(Rank(0, s))
    {
      ghost var a;
      ThreadsNeverBlock(server, readable, s);
      assert |threads| == 1 && !threads[0].Asleep?;
      match threads[0] {
        case Querying =>
          a := ThreadQuery(0);
          var outcome := server(request);
          threads := threads[0 := Arriving(outcome)];
        case Arriving(outcome) =>
          a := ThreadPush(0, Nobody);
          if queue == [] || isClosing {
            if queue == [] {
              queue := [outcome];
            }
            threads := threads[0 := Leaving];
          }
        case Leaving =>
          a := ThreadExit(0);
          threads := threads[0 := Exited];
      }
      StepOn(server, readable, s, a);
      ThreadRankDrops(server, readable, 0, s, a);
      s := Apply(server, readable, s, a);
    }

    /** The wait in SwitchCursor: it ends because the next page is on its way. */
    method AwaitPage()
      requires Valid() && s.pc == Waiting(false) && !Starved(server, s)
      modifies this`threads, this`queue, this`s
      ensures Valid() && queue != []
      ensures s == old(s).(threads := threads, queue := queue, sent := s.sent)
    {
      while queue == []
        invariant Valid() && s == old(s).(threads := threads, queue := queue, sent := s.sent)
        decreases Rank(0, s)
      {
        AwaitedPageComes(server, readable, s);
        RunThread();
      }
    }

    /** Waits for the oldest thread to exit. */
    method JoinFront()
      requires Valid() && threads != [] && s.pc != Waiting(true)
      modifies this`threads, this`queue, this`s
      ensures Valid() && |threads| == |old(threads)| && threads[0] == Exited
      ensures s == old(s).(threads := threads, queue := queue, sent := s.sent)
    {
      while threads[0] != Exited
        invariant Valid() && |threads| == |old(threads)|
        invariant s == old(s).(threads := threads, queue := queue, sent := s.sent)
        decreases Rank(0, s)
      {
        RunThread();
      }
    }

    /** The end of SwitchCursor for a page that names a next one: join, write the request, start a thread. */
    method StartNext(token: Token)
      requires Valid() && s.pc == Joining(token)
      modifies this`threads, this`queue, this`request, this`s
      ensures Valid() && s.pc == Idle && s.answers == old(s.answers + [ReadRow(readable, s.cursor)])
    {
      if threads != [] {
        JoinFront();
        threads := threads[1..];
      }
      request := token;
      threads := threads + [Querying];
      StepJoin(server, readable, s);
      s := ApplyJoin(readable, s);
    }

    /** A cursor over a new page, already on its first row. */
    method NewCursor(rows: seq<Row>) returns (c: TimestreamCursor)
      ensures fresh(c) && c.Valid() && c.columnCount == columnCount && c.View() == Cursor(rows, 1)
    {
      c := new TimestreamCursor(rows, columnCount);
      var _ := c.Increment();
    }

    /** SwitchCursor from the pop to its end, or up to the join of the last thread. */
    method TakeOutcome() returns (result: SqlResult, outcome: Outcome)
      requires Valid() && s.pc == Waiting(false) && queue != []
      modifies this`queue, this`cursor, this`hasAsyncFetch, this`s
      ensures Valid() && s == ApplyTake(readable, old(s))
      ensures cursor == old(cursor) || cursor == null || fresh(cursor)
      ensures outcome == old(queue[0])
      ensures result == if outcome.Failure? then Error else if outcome.rows == [] then NoData else Success
    {
      outcome := queue[0];
      queue := queue[1..];
      if outcome.Failure? {
        cursor := null;
        hasAsyncFetch := false;
        result := Error;
      } else if outcome.rows == [] {
        result := NoData;
      } else {
        cursor := NewCursor(outcome.rows);
        if outcome.next == NO_TOKEN {
          hasAsyncFetch := false;
        }
        result := Success;
      }
      StepTake(server, readable, s);
      s := ApplyTake(readable, s);
    }

    /** Switches to the next page; the answer is the one FetchNextRow is about to return. */
    method SwitchCursor() returns (result: SqlResult, ghost answer: Answer)
      requires Valid() && s.pc == Waiting(false) && !Starved(server, s)
      modifies this`request, this`queue, this`cursor, this`hasAsyncFetch, this`threads, this`s
      ensures Valid() && s.pc == Idle && s.answers == old(s.answers) + [answer]
      ensures cursor == old(cursor) || cursor == null || fresh(cursor)
      ensures if result == Success
        then cursor != null && cursor.curPos == 1 <= |cursor.rowVec| && answer == Give(readable, cursor.rowVec[0])
        else OffRows(s.cursor) && if result == NoData then answer == NoMore else result == Error && answer == Failed
    {
      WaitingIsOffRows(server, readable, s);
      AwaitPage();
      var outcome;
      ghost var waiting := s;
      result, outcome := TakeOutcome();
      TakeTells(readable, waiting, s);
      if result == Success && outcome.next != NO_TOKEN {
        StartNext(outcome.next);
      }
      answer := s.answers[|s.answers| - 1];
    }

    /** FetchNextRow up to the point where it knows whether it must switch to the next page. */
    method Advance() returns (more: bool)
      requires Valid() && s.pc == Idle && cursor != null
      modifies this`s, cursor
      ensures Valid() && s == ApplyCallFetch(readable, old(s)) && cursor == old(cursor)
      ensures more == (cursor.curPos <= |cursor.rowVec|) && cursor.curPos > 0
    {
      more := cursor.Increment();
      StepFetch(server, readable, s);
      s := ApplyCallFetch(readable, s);
    }

    /** FetchNextRow without the bound columns. */
    method MoveToNextRow() returns (result: SqlResult, ghost answer: Answer)
      requires Valid() && s.pc == Idle && !Starved(server, s)
      modifies this, cursor
      ensures Valid() && s.pc == Idle && s.answers == old(s.answers) + [answer] && rowCounter == old(rowCounter)
      ensures isClosing == old(isClosing) && (cursor == old(cursor) || cursor == null || fresh(cursor))
      ensures if result == Success
        then cursor != null && 1 <= cursor.curPos <= |cursor.rowVec|
             && answer == Give(readable, cursor.rowVec[cursor.rowIndex])
        else OffRows(s.cursor) && if result == NoData then answer == NoMore else result == Error && answer == Failed
    {
      if cursor == null {
        StepFetch(server, readable, s);
        s := ApplyCallFetch(readable, s);
        return NoData, NoMore;
      }
      AdvanceKeepsFed(server, readable, s);
      var more := Advance();
      if more {
        result, answer := Success, Give(readable, cursor.rowVec[cursor.rowIndex]);
      } else if hasAsyncFetch {
        result, answer := SwitchCursor();
      } else {
        result, answer := NoData, NoMore;
      }
    }

    /** The cursor is on this row. */
    ghost predicate OnRow(row: Row)
      reads this, cursor
    {
      cursor != null && 1 <= cursor.curPos <= |cursor.rowVec| && cursor.rowVec[cursor.curPos - 1] == row
    }

    /** Every row has a cell for every column. */
    ghost predicate Rectangular()
      reads this, cursor
    {
      cursor != null ==> forall row | row in cursor.rowVec :: |row| == columnCount
    }

    /**
      Reads a cell of the current row, which is the row fetched last; before the first fetch it is the
      first row.
    */
    method GetColumn(columnIdx: nat) returns (result: SqlResult, cell: Option<string>)
      requires Valid() && s.pc == Idle && Rectangular()
      modifies cursor
      ensures Valid() && s == old(s)
      ensures cell.Some? <==> result == Success
      ensures result == NoData <==> cursor == null
      ensures forall row | OnRow(row) && 1 <= columnIdx <= columnCount :: cell == Some(row[columnIdx - 1])
      ensures cursor != null && cursor.curPos == 0 && 1 <= columnIdx <= columnCount ==>
        cursor.rowVec != [] && cell == Some(cursor.rowVec[0][columnIdx - 1])
      ensures result == Success
              <==> cursor != null && cursor.curPos <= |cursor.rowVec| && 1 <= columnIdx <= columnCount
    {
      if cursor == null {
        return NoData, None;
      }
      CursorHasRows(server, readable, s);
      var has := cursor.HasData();
      if !has {
        return Error, None;
      }
      var discovered := cursor.EnsureColumnDiscovered(columnIdx);
      if !discovered {
        return Error, None;
      }
      return Success, Some(cursor.rowVec[cursor.rowIndex][columnIdx - 1]);
    }

    /** Fetches the next row into one slot of the bound columns; the result is the code of one new answer. */
    method FetchNextRow(bound: array<Row>, slot: nat) returns (result: SqlResult, ghost answer: Answer)
      requires Valid() && s.pc == Idle && !Starved(server, s)
      requires slot < bound.Length
      modifies this, cursor, bound
      ensures Valid() && s.pc == Idle && s.answers == old(s.answers) + [answer] && result == CodeOf(answer)
      ensures isClosing == old(isClosing) && (cursor == old(cursor) || cursor == null || fresh(cursor))
      ensures forall row | OnRow(row) ::
        if readable(row) then result == Success && answer == Fetched(row) && bound[..] == old(bound[..])[slot := row]
        else result == Error && answer == Unreadable(row) && bound[..] == old(bound[..])
      ensures answer.Fetched? || answer.Unreadable? ==> OnRow(answer.row)
      ensures result == NoData <==> answer == NoMore
      ensures answer == Failed ==> result == Error
      ensures rowCounter == old(rowCounter) + if answer.Fetched? then 1 else 0
      ensures bound[..] == if answer.Fetched? then old(bound[..])[slot := answer.row] else old(bound[..])
    {
      result, answer := MoveToNextRow();
      if result == Success {
        var row := cursor.rowVec[cursor.rowIndex];
        if readable(row) {
          bound[slot] := row;
          rowCounter := rowCounter + 1;
        } else {
          result := Error;
        }
      }
    }

    /** One round of the loop in InternalClose. */
    method CloseFront()
      requires Valid() && s.pc == Closing && threads != []
      modifies this`threads, this`queue, this`s
      ensures Valid() && s.pc == Closing && |threads| < |old(threads)| && s.answers == old(s.answers)
    {
      JoinFront();
      threads := threads[1..];
      StepCloseJoin(server, readable, s);
      s := s.(threads := s.threads[1..]);
    }

    /** Joins every thread and drops the cursor. */
    method InternalClose()
      requires Valid() && s.pc == Idle
      modifies this`isClosing, this`threads, this`queue, this`cursor, this`s
      ensures Valid() && s.pc == Idle && cursor == null && threads == [] && isClosing
      ensures s.answers == old(s.answers)
    {
      isClosing := true;
      StepCallClose(server, readable, s);
      s := s.(pc := Closing, isClosing := true);
      while threads != []
        invariant Valid() && s.pc == Closing && isClosing && s.answers == old(s.answers)
        decreases |threads|
      {
        CloseFront();
      }
      cursor := null;
      StepCloseDone(server, readable, s);
      s := s.(pc := Idle, cursor := None);
    }

    /** One round of the loop in MakeRequestExecute. */
    method QueryFirst() returns (outcome: Outcome)
      requires Valid() && s.pc == Executing
      modifies this`request, this`cursor, this`hasAsyncFetch, this`threads, this`isClosing, this`s
      ensures Valid() && s == ApplyQueryFirst(server, old(s)) && outcome == server(old(request))
      ensures cursor == old(cursor) || cursor == null || fresh(cursor)
    {
      outcome := server(request);
      if outcome.Failure? {
        isClosing := true;
        cursor := null;
      } else if outcome.rows == [] {
        if outcome.next != NO_TOKEN {
          request := outcome.next;
        }
      } else {
        cursor := new TimestreamCursor(outcome.rows, columnCount);
        if outcome.next != NO_TOKEN {
          request := outcome.next;
          threads := threads + [Querying];
          hasAsyncFetch := true;
        }
      }
      StepQueryFirst(server, readable, s);
      s := ApplyQueryFirst(server, s);
    }

    /** Executes the query: the first page with rows, if the chain has one before it fails. */
    method Execute(ghost n: nat) returns (result: SqlResult)
      requires Valid() && s == INIT && ExecuteEnds(server, n)
      modifies this
      ensures Valid() && s.pc == Idle && s.answers == []
      ensures result == Success || result == NoData || result == Error
      ensures s.taken > 0 && result == ExecuteCode(server, s.taken)
      ensures result != Success ==> !Continues(server, s.taken - 1)
      ensures result == Success <==> cursor != null
      ensures result == Error <==> isClosing
      ensures cursor == null || fresh(cursor)
    {
      StepExecute(server, readable);
      s := INIT.(pc := Executing);
      while true
        invariant Valid() && s.pc == Executing && cursor == null && !isClosing && s.answers == []
        decreases n - s.taken
      {
        FirstOutcome(server, readable, n, s);
        ghost var before := s;
        var outcome := QueryFirst();
        RoundTells(server, before, s);
        if outcome.Failure? {
          return Error;
        }
        if outcome.rows != [] {
          return Success;
        }
        if outcome.next == NO_TOKEN {
          return NoData;
        }
      }
    }
  }
}
