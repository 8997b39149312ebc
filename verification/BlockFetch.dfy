/** Block fetch: Statement cuts the row stream of its query into rowsets with status arrays. */
module BlockFetch {
  import opened OdbcTypes
  import opened ResultPages
  import opened PagingProtocol
  import opened PagingSafety
  import opened PagingTheorems
  import opened DataQueryModel
  import ApplicationBuffers

  datatype RowStatus = RowSuccess | RowSuccessWithInfo | RowNone | RowError

  function SqlResultToRowResult(value: SqlResult): RowStatus {
    match value
    case NoData => RowNone
    case Success => RowSuccess
    case SuccessWithInfo => RowSuccessWithInfo
    case _ => RowError
  }

  // The specification of a rowset

  /** The answers number from .. from + size of a script followed by "no more data" for ever. */
  function Rowset(script: seq<Answer>, from: nat, size: nat): (slots: seq<Answer>)
    ensures |slots| == size
  {
    Pad(script, from + size)[from..]
  }

  function FetchedIn(slots: seq<Answer>): nat {
    if slots == [] then 0 else FetchedIn(slots[..|slots| - 1]) + if slots[|slots| - 1].Fetched? then 1 else 0
  }

  function ErrorsIn(slots: seq<Answer>): nat {
    if slots == [] then 0
    else ErrorsIn(slots[..|slots| - 1]) + if CodeOf(slots[|slots| - 1]) == Error then 1 else 0
  }

  function NoneIn(slots: seq<Answer>): nat {
    if slots == [] then 0 else NoneIn(slots[..|slots| - 1]) + if slots[|slots| - 1] == NoMore then 1 else 0
  }

  function Sum(sizes: seq<nat>): nat {
    if sizes == [] then 0 else Sum(sizes[..|sizes| - 1]) + sizes[|sizes| - 1]
  }

  // What the codes and the counts say

  /** A row is marked as fetched, a slot as empty, and everything else as an error. */
  predicate StatusSays(status: RowStatus, answer: Answer) {
    && (status == RowSuccess <==> answer.Fetched?)
    && (status == RowNone <==> answer == NoMore)
    && (status == RowError <==> answer.Unreadable? || answer == Failed)
  }

  predicate Delivers(slots: seq<Answer>) {
    exists i :: 0 <= i < |slots| && slots[i].Fetched?
  }

  predicate Faulty(slots: seq<Answer>) {
    exists i :: 0 <= i < |slots| && (slots[i].Unreadable? || slots[i] == Failed)
  }

  /** Success with a row and no error, a warning with both, an error without a row, or nothing at all. */
  predicate ResultSays(result: SqlResult, slots: seq<Answer>) {
    && (result == Success <==> Delivers(slots) && !Faulty(slots))
    && (result == SuccessWithInfo <==> Delivers(slots) && Faulty(slots))
    && (result == Error <==> !Delivers(slots) && Faulty(slots))
    && (result == NoData <==> !Delivers(slots) && !Faulty(slots))
  }

  /** The slots whose row was fetched. */
  function FetchedAt(slots: seq<Answer>): set<nat> {
    set i: nat | i < |slots| && slots[i].Fetched?
  }

  lemma FetchedAtNext(slots: seq<Answer>, n: nat)
    requires |slots| == n + 1
    ensures FetchedAt(slots) == FetchedAt(slots[..n]) + (if slots[n].Fetched? then {n} else {})
    ensures n !in FetchedAt(slots[..n])
  {
    assert forall i | 0 <= i < n :: slots[..n][i] == slots[i];
  }

  lemma {:induction false} FetchedMeans(slots: seq<Answer>)
    ensures FetchedIn(slots) == |FetchedAt(slots)|
    ensures FetchedIn(slots) > 0 <==> Delivers(slots)
    decreases |slots|
  {
    if slots != [] {
      var n := |slots| - 1;
      FetchedMeans(slots[..n]);
      FetchedAtNext(slots, n);
    }
    DeliversMeans(slots);
  }

  lemma DeliversMeans(slots: seq<Answer>)
    ensures Delivers(slots) <==> |FetchedAt(slots)| > 0
  {
    if i: nat :| i < |slots| && slots[i].Fetched? {
      assert i in FetchedAt(slots);
    }
    if |FetchedAt(slots)| > 0 {
      var i :| i in FetchedAt(slots);
    }
  }

  lemma {:induction false} ErrorsMean(slots: seq<Answer>)
    ensures ErrorsIn(slots) > 0 <==> Faulty(slots)
    decreases |slots|
  {
    if slots != [] {
      var n := |slots| - 1;
      ErrorsMean(slots[..n]);
      assert forall i | 0 <= i < n :: slots[..n][i] == slots[i];
    }
  }

  /** What a rowset leaves in the status array: the marks of its slots, and nothing behind them. */
  predicate StatusesSay(after: seq<RowStatus>, before: seq<RowStatus>, slots: seq<Answer>) {
    && |slots| <= |after| == |before| && after[|slots|..] == before[|slots|..]
    && forall i | 0 <= i < |slots| :: StatusSays(after[i], slots[i])
  }

  /** What a rowset leaves in the bound columns: the rows that were fetched, each in its own slot. */
  predicate RowsSay(after: seq<Row>, before: seq<Row>, slots: seq<Answer>) {
    |slots| <= |after| == |before|
    && forall i | 0 <= i < |after| ::
         after[i] == if i < |slots| && slots[i].Fetched? then slots[i].row else before[i]
  }

  /** A rowset is a run of fetched or failed rows followed only by empty slots. */
  lemma {:induction false} RowsThenNone(script: seq<Answer>, from: nat, size: nat)
    requires NoMore !in script
    ensures var slots := Rowset(script, from, size);
      var rows := if |script| <= from then 0 else Min(size, |script| - from);
      && slots[..rows] == script[Min(from, |script|)..][..rows]
      && forall statuses | StatusesSay(statuses, statuses, slots) ::
           && (forall i | 0 <= i < rows :: statuses[i] == RowSuccess || statuses[i] == RowError)
           && (forall i | rows <= i < size :: statuses[i] == RowNone)
  {
    var slots := Rowset(script, from, size);
    forall i | 0 <= i < size && from + i < |script| ensures slots[i] in script {
      assert slots[i] == script[from + i];
    }
  }

  lemma {:induction false} CountsAddUp(slots: seq<Answer>)
    ensures FetchedIn(slots) + ErrorsIn(slots) + NoneIn(slots) == |slots|
    ensures FetchedIn(slots) == 0 && ErrorsIn(slots) == 0 <==> forall a | a in slots :: a == NoMore
    decreases |slots|
  {
    if slots != [] {
      var head, last := slots[..|slots| - 1], slots[|slots| - 1];
      CountsAddUp(head);
      assert slots == head + [last];
      assert last in slots && forall a | a in slots :: a in head || a == last;
      assert forall a | a in head :: a in slots;
    }
  }

  lemma NothingExactlyAtTheEnd(script: seq<Answer>, from: nat, size: nat)
    requires NoMore !in script
    ensures
      var slots := Rowset(script, from, size);
      !Delivers(slots) && !Faulty(slots) <==> size == 0 || |script| <= from
  {
    var slots := Rowset(script, from, size);
    if size > 0 && from < |script| {
      assert script[from] in script && slots[0] == script[from];
    }
  }

  lemma ScriptHasNoNoMore(server: Server, readable: Reader, n: nat)
    ensures NoMore !in Script(server, readable, n)
  {
  }

  /** The slots added by one block fetch are the rowset that the script prescribes. */
  lemma BlockFollowsScript(server: Server, readable: Reader, n: nat, s: State, s': State, slots: seq<Answer>)
    requires ChainOf(server, n) && NoRowsLost(server, n)
    requires Reachable(server, readable, s') && !s'.isClosing && s'.answers == s.answers + slots
    ensures slots == Rowset(Script(server, readable, n), |s.answers|, |slots|)
  {
    EveryRowOnceThenNoMore(server, readable, n, s');
    assert slots == s'.answers[|s.answers|..];
  }

  /** A block fetch says "no more data" exactly when every row of the chain was told before. */
  lemma BlockSaysNoDataAtTheEnd(
      server: Server, readable: Reader, n: nat, s: State, s': State, slots: seq<Answer>, result: SqlResult)
    requires ChainOf(server, n) && NoRowsLost(server, n)
    requires Reachable(server, readable, s') && !s'.isClosing && s'.answers == s.answers + slots
    requires ResultSays(result, slots)
    ensures result == NoData <==> slots == [] || |Script(server, readable, n)| <= |s.answers|
  {
    BlockFollowsScript(server, readable, n, s, s', slots);
    ScriptHasNoNoMore(server, readable, n);
    NothingExactlyAtTheEnd(Script(server, readable, n), |s.answers|, |slots|);
  }

  lemma FedWithoutLaterEmpty(server: Server, readable: Reader, s: State)
    requires NoLaterEmpty(server) && Reachable(server, readable, s)
    ensures !Starved(server, s)
  {
    ReachableKeeps(server, readable, s);
  }

  lemma CountsSnoc(slots: seq<Answer>, a: Answer)
    ensures FetchedIn(slots + [a]) == FetchedIn(slots) + if a.Fetched? then 1 else 0
    ensures ErrorsIn(slots + [a]) == ErrorsIn(slots) + if CodeOf(a) == Error then 1 else 0
  {
  }

  lemma RowsSayNext(after: seq<Row>, before: seq<Row>, slots: seq<Answer>, a: Answer)
    requires RowsSay(after, before, slots) && |slots| < |after|
    ensures RowsSay(if a.Fetched? then after[|slots| := a.row] else after, before, slots + [a])
  {
  }

  lemma StatusesSayNext(
      after: seq<RowStatus>, before: seq<RowStatus>, slots: seq<Answer>, a: Answer, status: RowStatus)
    requires StatusesSay(after, before, slots) && |slots| < |after| && StatusSays(status, a)
    ensures StatusesSay(after[|slots| := status], before, slots + [a])
  {
    var k := |slots|;
    assert after[k := status][k + 1..] == after[k..][1..];
  }

  /** What one block fetch left for the application. */
  datatype Block = Block(result: SqlResult, rowsFetched: nat, rows: seq<Row>, statuses: Option<seq<RowStatus>>)

  /** Result, count, bound columns and status array, if there is one, are those of the slots. */
  ghost predicate Shows(block: Block, slots: seq<Answer>, marked: bool) {
    && ResultSays(block.result, slots) && |block.rows| == |slots|
    && block.rowsFetched == |FetchedAt(slots)|
    && (block.statuses.Some? <==> marked)
    && (marked ==>
          |block.statuses.value| == |slots|
          && forall i | 0 <= i < |slots| :: StatusSays(block.statuses.value[i], slots[i]))
    && forall i | 0 <= i < |slots| && slots[i].Fetched? :: block.rows[i] == slots[i].row
  }

  /** Every block has its array size. */
  predicate Sized(blocks: seq<seq<Answer>>, sizes: seq<nat>) {
    |blocks| == |sizes| && forall i | 0 <= i < |sizes| :: |blocks[i]| == sizes[i]
  }

  /** Every block has its array size, and was left as its slots say. */
  ghost predicate Logged(log: seq<Block>, blocks: seq<seq<Answer>>, sizes: seq<nat>, marked: bool) {
    Sized(blocks, sizes) && |log| == |blocks| && forall i | 0 <= i < |log| :: Shows(log[i], blocks[i], marked)
  }

  lemma LoggedNext(
      log: seq<Block>, blocks: seq<seq<Answer>>, sizes: seq<nat>, i: nat, block: Block, slots: seq<Answer>,
      marked: bool)
    requires i < |sizes| && |slots| == sizes[i]
    requires Logged(log, blocks, sizes[..i], marked) && Shows(block, slots, marked)
    ensures Logged(log + [block], blocks + [slots], sizes[..i + 1], marked)
    ensures forall answers: seq<Answer> ::
      answers + Flatten(blocks) + slots == answers + Flatten(blocks + [slots])
  {
    FlattenLast(blocks, slots);
  }

  lemma FlattenSplits(blocks: seq<seq<Answer>>, k: nat)
    requires |blocks| == k + 1
    ensures Flatten(blocks) == Flatten(blocks[..k]) + blocks[k]
  {
    FlattenLast(blocks[..k], blocks[k]);
    assert blocks == blocks[..k] + [blocks[k]];
  }

  lemma {:induction false} SizedLength(blocks: seq<seq<Answer>>, sizes: seq<nat>)
    requires Sized(blocks, sizes)
    ensures |Flatten(blocks)| == Sum(sizes)
    decreases |sizes|
  {
    if sizes != [] {
      var last := |sizes| - 1;
      SizedLength(blocks[..last], sizes[..last]);
      FlattenSplits(blocks, last);
    }
  }

  /** All answers that a run of block fetches added, taken together, are prescribed by the chain. */
  lemma BlocksFollowScript(
      server: Server, readable: Reader, n: nat, answers: seq<Answer>, s: State,
      blocks: seq<seq<Answer>>, sizes: seq<nat>)
    requires ChainOf(server, n) && NoLaterEmpty(server) && Reachable(server, readable, s) && !s.isClosing
    requires s.answers == answers + Flatten(blocks) && Sized(blocks, sizes)
    ensures Flatten(blocks) == Rowset(Script(server, readable, n), |answers|, Sum(sizes))
  {
    SizedLength(blocks, sizes);
    NothingLostWithoutLaterEmpty(server, n);
    EveryRowOnceThenNoMore(server, readable, n, s);
    assert Flatten(blocks) == s.answers[|answers|..];
  }

  /** Block i is the rowset of its own place in the stream. */
  lemma {:induction false} EachBlockIsARowset(
      script: seq<Answer>, from: nat, blocks: seq<seq<Answer>>, sizes: seq<nat>, i: nat)
    requires Sized(blocks, sizes) && Flatten(blocks) == Rowset(script, from, Sum(sizes)) && i < |sizes|
    ensures blocks[i] == Rowset(script, from + Sum(sizes[..i]), sizes[i])
    decreases |sizes|
  {
    var last := |sizes| - 1;
    LastBlock(script, from, blocks, sizes, last);
    if i < last {
      EachBlockIsARowset(script, from, blocks[..last], sizes[..last], i);
      assert sizes[..last][..i] == sizes[..i];
    }
  }

  lemma RowsetCut(script: seq<Answer>, from: nat, a: nat, b: nat)
    ensures Rowset(script, from, a + b) == Rowset(script, from, a) + Rowset(script, from + a, b)
  {
  }

  lemma SameCut(a: seq<Answer>, b: seq<Answer>, c: seq<Answer>, d: seq<Answer>)
    requires a + b == c + d && |a| == |c|
    ensures a == c && b == d
  {
    assert a == (a + b)[..|a|] && b == (a + b)[|a|..];
    assert c == (c + d)[..|c|] && d == (c + d)[|c|..];
  }

  lemma RowsetParts(
      script: seq<Answer>, from: nat, a: nat, b: nat, head: seq<Answer>, last: seq<Answer>)
    requires head + last == Rowset(script, from, a + b) && |head| == a && |last| == b
    ensures head == Rowset(script, from, a) && last == Rowset(script, from + a, b)
  {
    RowsetCut(script, from, a, b);
    SameCut(head, last, Rowset(script, from, a), Rowset(script, from + a, b));
  }

  lemma LastBlock(script: seq<Answer>, from: nat, blocks: seq<seq<Answer>>, sizes: seq<nat>, last: nat)
    requires Sized(blocks, sizes) && Flatten(blocks) == Rowset(script, from, Sum(sizes)) && |sizes| == last + 1
    ensures Sized(blocks[..last], sizes[..last])
    ensures Flatten(blocks[..last]) == Rowset(script, from, Sum(sizes[..last]))
    ensures blocks[last] == Rowset(script, from + Sum(sizes[..last]), sizes[last])
  {
    FlattenSplits(blocks, last);
    SizedLength(blocks[..last], sizes[..last]);
    RowsetParts(script, from, Sum(sizes[..last]), sizes[last], Flatten(blocks[..last]), blocks[last]);
  }

  // What the application finds over a whole query

  /** Rows make a success, an empty result is a success with a warning, and a failure before any row an error. */
  predicate ExecuteSays(result: SqlResult, server: Server, k: nat)
    requires k > 0
  {
    && (result == Success <==> RowsBefore(server, k) != [])
    && (result == SuccessWithInfo <==> RowsBefore(server, k) == [] && OutcomeAt(server, k - 1).Page?)
    && (result == Error <==> RowsBefore(server, k) == [] && OutcomeAt(server, k - 1).Failure?)
  }

  lemma ChainEndsExecute(server: Server, n: nat)
    requires ChainOf(server, n)
    ensures ExecuteEnds(server, n)
  {
    assert !Continues(server, n - 1);
  }

  /** What is said once the first page with rows, or the end of the chain, was reached holds of the whole chain. */
  lemma SaidOfWholeChain(server: Server, readable: Reader, n: nat, s: State, result: SqlResult)
    requires ChainOf(server, n) && Reachable(server, readable, s) && s.taken > 0
    requires ExecuteSays(result, server, s.taken) && (result == Success || !Continues(server, s.taken - 1))
    ensures ExecuteSays(result, server, n)
  {
    ExecuteTells(server, readable, n, s);
  }

  /** The bound columns of all blocks, one after the other. */
  function AllRows(log: seq<Block>): seq<Row> {
    if log == [] then [] else log[0].rows + AllRows(log[1..])
  }

  /** Their status arrays. */
  function AllMarks(log: seq<Block>): seq<RowStatus> {
    if log == [] then []
    else (if log[0].statuses.Some? then log[0].statuses.value else []) + AllMarks(log[1..])
  }

  /** Place i of the bound columns holds row i of the chain, if its columns convert. */
  predicate ReadsChain(found: seq<Row>, rows: seq<Row>, readable: Reader) {
    forall i | 0 <= i < |found| && i < |rows| && readable(rows[i]) :: found[i] == rows[i]
  }

  /** Place i of the status arrays says what became of row i; behind the rows a failure is marked once. */
  predicate MarksChain(marks: seq<RowStatus>, rows: seq<Row>, readable: Reader, fails: bool) {
    forall i | 0 <= i < |marks| ::
      if i < |rows| then marks[i] == if readable(rows[i]) then RowSuccess else RowError
      else marks[i] == if i == |rows| && fails then RowError else RowNone
  }

  /**
    What blocks of this size in all leave of a chain of n outcomes: every readable row at its place, and what
    became of each row in the status arrays; if every row is readable and there is room, all rows in order.
  */
  predicate FindsChain(log: seq<Block>, server: Server, readable: Reader, n: nat, size: nat, marked: bool) {
    var rows := RowsBefore(server, n);
    && |AllRows(log)| == size && ReadsChain(AllRows(log), rows, readable)
    && (marked ==> |AllMarks(log)| == size && MarksChain(AllMarks(log), rows, readable, FailsBehindRows(server, n)))
    && ((forall row | row in rows :: readable(row)) && |rows| <= size ==> AllRows(log)[..|rows|] == rows)
  }

  lemma ShowsOn(log: seq<Block>, blocks: seq<seq<Answer>>, marked: bool)
    requires |log| == |blocks| > 0 && forall i | 0 <= i < |log| :: Shows(log[i], blocks[i], marked)
    ensures Shows(log[0], blocks[0], marked)
    ensures |log[1..]| == |blocks[1..]| && forall i | 0 <= i < |log[1..]| :: Shows(log[1..][i], blocks[1..][i], marked)
  {
  }

  /** Slot k of all blocks taken together stands at place k of what they left. */
  lemma {:induction false} LogShows(log: seq<Block>, blocks: seq<seq<Answer>>, marked: bool, k: nat)
    requires |log| == |blocks| && (forall i | 0 <= i < |log| :: Shows(log[i], blocks[i], marked))
    ensures |AllRows(log)| == |Flatten(blocks)|
    ensures marked ==> |AllMarks(log)| == |Flatten(blocks)|
    ensures k < |Flatten(blocks)| && Flatten(blocks)[k].Fetched? ==> AllRows(log)[k] == Flatten(blocks)[k].row
    ensures marked && k < |Flatten(blocks)| ==> StatusSays(AllMarks(log)[k], Flatten(blocks)[k])
    decreases |log|
  {
    if log != [] {
      ShowsOn(log, blocks, marked);
      var n := |blocks[0]|;
      LogShows(log[1..], blocks[1..], marked, if k < n then 0 else k - n);
    }
  }

  lemma StatusOfTold(server: Server, readable: Reader, n: nat, i: nat, answer: Answer, status: RowStatus)
    requires Tells(server, readable, n, i, answer) && StatusSays(status, answer)
    ensures
      var rows := RowsBefore(server, n);
      status == if i < |rows| then if readable(rows[i]) then RowSuccess else RowError
                else if i == |rows| && FailsBehindRows(server, n) then RowError else RowNone
  {
  }

  lemma WholeChainIsRead(found: seq<Row>, rows: seq<Row>, readable: Reader)
    requires ReadsChain(found, rows, readable) && |found| >= |rows| && forall row | row in rows :: readable(row)
    ensures found[..|rows|] == rows
  {
  }

  /** What a run of blocks that make the stream of the chain leaves for the application. */
  lemma LogReadsChain(server: Server, readable: Reader, n: nat, log: seq<Block>, blocks: seq<seq<Answer>>, marked: bool)
    requires |log| == |blocks| && forall i | 0 <= i < |log| :: Shows(log[i], blocks[i], marked)
    requires Flatten(blocks) == Pad(Script(server, readable, n), |Flatten(blocks)|)
    ensures FindsChain(log, server, readable, n, |Flatten(blocks)|, marked)
  {
    LogShows(log, blocks, marked, 0);
    var rows, fails := RowsBefore(server, n), FailsBehindRows(server, n);
    forall i | 0 <= i < |Flatten(blocks)|
      ensures i < |rows| && readable(rows[i]) ==> AllRows(log)[i] == rows[i]
      ensures marked ==>
        AllMarks(log)[i] == if i < |rows| then if readable(rows[i]) then RowSuccess else RowError
                            else if i == |rows| && fails then RowError else RowNone
    {
      LogShows(log, blocks, marked, i);
      PadTells(server, readable, n, |Flatten(blocks)|, i);
      if marked {
        StatusOfTold(server, readable, n, i, Flatten(blocks)[i], AllMarks(log)[i]);
      }
    }
    if (forall row | row in rows :: readable(row)) && |rows| <= |Flatten(blocks)| {
      WholeChainIsRead(AllRows(log), rows, readable);
    }
  }

  class Statement {
    const cell: ApplicationBuffers.StatementCell
    var currentQuery: DataQuery?
    var rowArraySize: nat
    var rowsetSize: nat
    var rowStatuses: array?<RowStatus>
    var rowsFetched: nat

    constructor ()
      ensures currentQuery == null && fresh(cell)
    {
      cell := new ApplicationBuffers.StatementCell();
      currentQuery, rowArraySize, rowsetSize, rowStatuses, rowsFetched := null, 1, 1, null, 0;
    }

    /** One round of the fetch loop, after the rounds that gave slots to arrays that held was and marks. */
    method FetchSlot(query: DataQuery, bound: array<Row>, statuses: array?<RowStatus>, i: nat,
                     ghost slots: seq<Answer>, ghost was: seq<Row>, ghost marks: seq<RowStatus>)
      returns (res: SqlResult, ghost answer: Answer)
      requires query.Valid() && query.s.pc == Idle && NoLaterEmpty(query.server)
      requires i == |slots| < bound.Length && (statuses != null ==> i < statuses.Length)
      requires RowsSay(bound[..], was, slots) && (statuses != null ==> StatusesSay(statuses[..], marks, slots))
      modifies query, query.cursor, bound, statuses
      ensures query.Valid() && query.s.pc == Idle && query.isClosing == old(query.isClosing)
      ensures query.cursor == old(query.cursor) || query.cursor == null || fresh(query.cursor)
      ensures query.s.answers == old(query.s.answers) + [answer] && res == CodeOf(answer)
      ensures RowsSay(bound[..], was, slots + [answer])
      ensures statuses != null ==> StatusesSay(statuses[..], marks, slots + [answer])
    {
      FedWithoutLaterEmpty(query.server, query.readable, query.s);
      ghost var after := bound[..];
      res, answer := query.FetchNextRow(bound, i);
      RowsSayNext(after, was, slots, answer);
      if statuses != null {
        StatusesSayNext(statuses[..], marks, slots, answer, SqlResultToRowResult(res));
        statuses[i] := SqlResultToRowResult(res);
      }
    }

    method Count(res: SqlResult, fetched: nat, errors: nat, ghost slots: seq<Answer>, ghost answer: Answer)
      returns (fetched': nat, errors': nat)
      requires res == CodeOf(answer) && fetched == FetchedIn(slots) && errors == ErrorsIn(slots)
      ensures fetched' == FetchedIn(slots + [answer]) && errors' == ErrorsIn(slots + [answer])
    {
      fetched', errors' := fetched, errors;
      if res == Success || res == SuccessWithInfo {
        fetched' := fetched + 1;
      } else if res != NoData {
        errors' := errors + 1;
      }
      CountsSnoc(slots, answer);
    }

    /** The fetch loop: slot i of the bound columns and of the status array belongs to answer i. */
    method FetchRowset(query: DataQuery, bound: array<Row>, statuses: array?<RowStatus>, size: nat)
      returns (fetched: nat, errors: nat, ghost slots: seq<Answer>)
      requires query.Valid() && query.s.pc == Idle && NoLaterEmpty(query.server)
      requires size <= bound.Length && (statuses != null ==> size <= statuses.Length)
      modifies query, query.cursor, bound, statuses
      ensures query.Valid() && query.s.pc == Idle && query.isClosing == old(query.isClosing)
      ensures query.cursor == old(query.cursor) || query.cursor == null || fresh(query.cursor)
      ensures |slots| == size && query.s.answers == old(query.s.answers) + slots
      ensures fetched == FetchedIn(slots) && errors == ErrorsIn(slots)
      ensures RowsSay(bound[..], old(bound[..]), slots)
      ensures statuses != null ==> StatusesSay(statuses[..], old(statuses[..]), slots)
    {
      fetched, errors, slots := 0, 0, [];
      ghost var was, answers := bound[..], query.s.answers;
      ghost var marks := if statuses != null then statuses[..] else [];
      for i := 0 to size
        invariant query.Valid() && query.s.pc == Idle && query.isClosing == old(query.isClosing)
        invariant query.cursor == old(query.cursor) || query.cursor == null || fresh(query.cursor)
        invariant |slots| == i && query.s.answers == answers + slots
        invariant fetched == FetchedIn(slots) && errors == ErrorsIn(slots)
        invariant RowsSay(bound[..], was, slots)
        invariant statuses != null ==> StatusesSay(statuses[..], marks, slots)
      {
        var res;
        ghost var answer;
        res, answer := FetchSlot(query, bound, statuses, i, slots, was, marks);
        fetched, errors := Count(res, fetched, errors, slots, answer);
        slots := slots + [answer];
      }
    }

    /** The result of the counts. */
    method ResultOf(fetched: nat, errors: nat, ghost slots: seq<Answer>) returns (result: SqlResult)
      requires fetched == FetchedIn(slots) && errors == ErrorsIn(slots)
      ensures ResultSays(result, slots) && fetched == |FetchedAt(slots)|
    {
      FetchedMeans(slots);
      ErrorsMean(slots);
      if fetched > 0 {
        result := if errors == 0 then Success else SuccessWithInfo;
      } else {
        result := if errors == 0 then NoData else Error;
      }
    }

    /** Fetches one rowset, and forgets how far a cell of the row before was read. */
    method InternalFetchRow(bound: array<Row>) returns (result: SqlResult, ghost slots: seq<Answer>)
      requires currentQuery != null ==>
        && currentQuery.Valid() && currentQuery.s.pc == Idle && NoLaterEmpty(currentQuery.server)
        && rowArraySize <= bound.Length
        && (rowStatuses != null ==> rowArraySize <= rowStatuses.Length)
      modifies this`rowsFetched, cell`cellOffset, rowStatuses, bound
      modifies currentQuery, if currentQuery == null then null else currentQuery.cursor
      ensures currentQuery == null ==> result == Error && slots == [] && rowsFetched == 0
      ensures currentQuery != null ==>
        && currentQuery.Valid() && currentQuery.s.pc == Idle && (forall colNum :: cell.StartOf(colNum) == 0)
        && currentQuery.isClosing == old(currentQuery.isClosing)
        && (currentQuery.cursor == old(currentQuery.cursor) || currentQuery.cursor == null
            || fresh(currentQuery.cursor))
        && |slots| == rowArraySize && currentQuery.s.answers == old(currentQuery.s.answers) + slots
        && rowsFetched == |FetchedAt(slots)| && ResultSays(result, slots)
      ensures RowsSay(bound[..], old(bound[..]), slots)
      ensures rowStatuses != null ==> StatusesSay(rowStatuses[..], old(rowStatuses[..]), slots)
    {
      slots := [];
      rowsFetched := 0;
      if currentQuery == null {
        return Error, [];
      }
      var fetched, errors;
      fetched, errors, slots := FetchRowset(currentQuery, bound, rowStatuses, rowArraySize);
      rowsFetched := fetched;
      result := ResultOf(fetched, errors, slots);
      cell.FetchRow();
    }

    /**
      The same loop over its own arguments; how far a cell was read is not forgotten. The row count is what
      is written through its pointer: a refused call returns before it writes anything.
    */
    method InternalExtendedFetch(next: bool, bound: array<Row>, statuses: array?<RowStatus>)
      returns (result: SqlResult, rowCount: Option<nat>, ghost slots: seq<Answer>)
      requires currentQuery != null ==>
        && currentQuery.Valid() && currentQuery.s.pc == Idle && NoLaterEmpty(currentQuery.server)
        && rowsetSize <= bound.Length && (statuses != null ==> rowsetSize <= statuses.Length)
      modifies statuses, bound
      modifies currentQuery, if currentQuery == null then null else currentQuery.cursor
      ensures forall colNum :: cell.StartOf(colNum) == old(cell.StartOf(colNum))
      ensures !next || currentQuery == null ==> result == Error && slots == [] && rowCount == None
      ensures next && currentQuery != null ==>
        && currentQuery.Valid() && currentQuery.s.pc == Idle
        && currentQuery.isClosing == old(currentQuery.isClosing)
        && (currentQuery.cursor == old(currentQuery.cursor) || currentQuery.cursor == null
            || fresh(currentQuery.cursor))
        && |slots| == rowsetSize && currentQuery.s.answers == old(currentQuery.s.answers) + slots
        && rowCount == Some(|FetchedAt(slots)|) && ResultSays(result, slots)
      ensures RowsSay(bound[..], old(bound[..]), slots)
      ensures statuses != null ==> StatusesSay(statuses[..], old(statuses[..]), slots)
    {
      slots := [];
      if !next || currentQuery == null {
        return Error, None, [];
      }
      var fetched, errors;
      fetched, errors, slots := FetchRowset(currentQuery, bound, statuses, rowsetSize);
      rowCount := Some(fetched);
      result := ResultOf(fetched, errors, slots);
    }

    /** Sets the array size, fetches one block, and keeps what it left. */
    method FetchBlock(bound: array<Row>, size: nat, statuses: array?<RowStatus>)
      returns (block: Block, ghost slots: seq<Answer>)
      requires currentQuery != null && currentQuery.Valid() && currentQuery.s.pc == Idle
      requires NoLaterEmpty(currentQuery.server) && rowStatuses == statuses
      requires size <= bound.Length && (statuses != null ==> size <= statuses.Length)
      modifies this`rowArraySize, this`rowsFetched, cell`cellOffset, statuses, bound, currentQuery, currentQuery.cursor
      ensures currentQuery.Valid() && currentQuery.s.pc == Idle
      ensures currentQuery.isClosing == old(currentQuery.isClosing)
      ensures currentQuery.cursor == old(currentQuery.cursor) || currentQuery.cursor == null
              || fresh(currentQuery.cursor)
      ensures |slots| == size && currentQuery.s.answers == old(currentQuery.s.answers) + slots
      ensures Shows(block, slots, statuses != null)
    {
      rowArraySize := size;
      var result;
      result, slots := InternalFetchRow(bound);
      var marks := if statuses != null then Some(statuses[..size]) else None;
      block := Block(result, rowsFetched, bound[..size], marks);
    }

    /**
      Fetches block after block, with any array size for each: together they are the stream that the
      chain prescribes, whatever the sizes and the pages.
    */
    method FetchBlocks(bound: array<Row>, sizes: seq<nat>, statuses: array?<RowStatus>, ghost n: nat)
      returns (log: seq<Block>, ghost blocks: seq<seq<Answer>>)
      requires currentQuery != null && currentQuery.Valid() && currentQuery.s.pc == Idle
      requires NoLaterEmpty(currentQuery.server) && rowStatuses == statuses
      requires !currentQuery.isClosing && ChainOf(currentQuery.server, n)
      requires forall i | 0 <= i < |sizes| ::
        sizes[i] <= bound.Length && (statuses != null ==> sizes[i] <= statuses.Length)
      modifies this`rowArraySize, this`rowsFetched, cell`cellOffset, statuses, bound, currentQuery, currentQuery.cursor
      ensures currentQuery.Valid() && currentQuery.s.pc == Idle && !currentQuery.isClosing
      ensures currentQuery.cursor == old(currentQuery.cursor) || currentQuery.cursor == null
              || fresh(currentQuery.cursor)
      ensures Logged(log, blocks, sizes, statuses != null)
      ensures currentQuery.s.answers == old(currentQuery.s.answers) + Flatten(blocks)
      ensures Flatten(blocks)
           == Rowset(Script(currentQuery.server, currentQuery.readable, n),
                     old(|currentQuery.s.answers|), Sum(sizes))
    {
      var query := currentQuery;
      ghost var answers := query.s.answers;
      log, blocks := [], [];
      for i := 0 to |sizes|
        invariant currentQuery == query && rowStatuses == statuses
        invariant query.Valid() && query.s.pc == Idle && !query.isClosing
        invariant query.cursor == old(query.cursor) || query.cursor == null || fresh(query.cursor)
        invariant Logged(log, blocks, sizes[..i], statuses != null) && query.s.answers == answers + Flatten(blocks)
      {
        var block;
        ghost var slots;
        block, slots := FetchBlock(bound, sizes[i], statuses);
        LoggedNext(log, blocks, sizes, i, block, slots, statuses != null);
        log := log + [block];
        blocks := blocks + [slots];
      }
      assert sizes[..|sizes|] == sizes;
      BlocksFollowScript(query.server, query.readable, n, answers, query.s, blocks, sizes);
    }

    /** Closes the query the statement had, and executes another one; an empty result is a success with a warning. */
    method InternalExecuteSqlQuery(server: Server, readable: Reader, columnCount: nat, ghost n: nat)
      returns (result: SqlResult)
      requires currentQuery != null ==> currentQuery.Valid() && currentQuery.s.pc == Idle
      requires ExecuteEnds(server, n)
      modifies this`currentQuery, currentQuery
      ensures old(currentQuery) != null ==>
        var was := old(currentQuery);
        was.Valid() && was.isClosing && was.threads == [] && was.cursor == null && was.s.answers == old(was.s.answers)
      ensures fresh(currentQuery) && currentQuery.server == server && currentQuery.readable == readable
      ensures currentQuery.Valid() && currentQuery.s.pc == Idle && currentQuery.s.answers == []
      ensures currentQuery.cursor == null || fresh(currentQuery.cursor)
      ensures
        var k := currentQuery.s.taken;
        && k > 0 && ExecuteSays(result, server, k)
        && (result != Success ==> !Continues(server, k - 1))
      ensures result == Success <==> currentQuery.cursor != null
      ensures result == Error <==> currentQuery.isClosing
    {
      if currentQuery != null {
        currentQuery.InternalClose();
      }
      currentQuery := new DataQuery(server, readable, columnCount);
      result := currentQuery.Execute(n);
      if result == NoData {
        result := SuccessWithInfo;
      }
    }

    /** Closes the query if it has a cursor. */
    method InternalClose(ignoreErrors: bool) returns (result: SqlResult)
      requires currentQuery != null ==> currentQuery.Valid() && currentQuery.s.pc == Idle
      modifies currentQuery
      ensures currentQuery != null ==> currentQuery.Valid() && currentQuery.s.pc == Idle
      ensures currentQuery != null ==> currentQuery.s.answers == old(currentQuery.s.answers)
      ensures currentQuery != null ==> currentQuery.cursor == null
      ensures currentQuery != null ==>
        if old(currentQuery.cursor) == null then unchanged(currentQuery)
        else currentQuery.isClosing && currentQuery.threads == []
      ensures result
           == if ignoreErrors || currentQuery == null || old(currentQuery.cursor) != null then Success else Error
    {
      if currentQuery == null {
        return Success;
      }
      if currentQuery.cursor == null {
        return if ignoreErrors then Success else Error;
      }
      currentQuery.InternalClose();
      return Success;
    }

    /**
      A whole query: execute it, fetch any list of blocks, and close it. On a finite chain without an empty
      page behind rows the result of executing says what the chain holds, and the blocks are its stream.
    */
    method RunQuery(
        server: Server, readable: Reader, columnCount: nat, bound: array<Row>, sizes: seq<nat>,
        statuses: array?<RowStatus>, ghost n: nat)
      returns (result: SqlResult, log: seq<Block>, ghost blocks: seq<seq<Answer>>)
      requires currentQuery != null ==> currentQuery.Valid() && currentQuery.s.pc == Idle
      requires ChainOf(server, n) && NoLaterEmpty(server) && rowStatuses == statuses
      requires forall i | 0 <= i < |sizes| ::
        sizes[i] <= bound.Length && (statuses != null ==> sizes[i] <= statuses.Length)
      modifies this`currentQuery, this`rowArraySize, this`rowsFetched, cell`cellOffset, statuses, bound, currentQuery
      ensures ExecuteSays(result, server, n)
      ensures result == Error ==> log == []
      ensures result != Error ==>
        && Logged(log, blocks, sizes, statuses != null)
        && Flatten(blocks) == Rowset(Script(server, readable, n), 0, Sum(sizes))
      ensures result != Error ==> FindsChain(log, server, readable, n, Sum(sizes), statuses != null)
      ensures fresh(currentQuery) && currentQuery.Valid() && currentQuery.cursor == null
    {
      log, blocks := [], [];
      ChainEndsExecute(server, n);
      result := InternalExecuteSqlQuery(server, readable, columnCount, n);
      SaidOfWholeChain(server, readable, n, currentQuery.s, result);
      if result != Error {
        log, blocks := FetchBlocks(bound, sizes, statuses, n);
        LogReadsChain(server, readable, n, log, blocks, statuses != null);
      }
      var _ := InternalClose(true);
    }
  }
}
