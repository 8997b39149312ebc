/**
  The server side of a query, and what the caller should hear about it.

  A server answers a request carrying a token with an outcome: a failure, or a page of rows and
  the token of the next page (the empty token marks the last page). Nothing is assumed about the
  chain: it may fail anywhere, contain empty pages, or never end.
*/
module ResultPages {

  type Token = string
  type Row = seq<string>

  datatype Outcome = Failure | Page(rows: seq<Row>, next: Token)

  type Server = Token -> Outcome

  /** The rows whose bound columns all convert without a failure. */
  type Reader = Row -> bool

  /** What one FetchNextRow call tells its caller. */
  datatype Answer = Fetched(row: Row) | Unreadable(row: Row) | NoMore | Failed

  const NO_TOKEN: Token := ""

  // The chain of outcomes, in token order

  function TokenAt(server: Server, k: nat): Token {
    if k == 0 then NO_TOKEN
    else match server(TokenAt(server, k - 1))
      case Page(_, next) => next
      case Failure => NO_TOKEN
  }

  function OutcomeAt(server: Server, k: nat): Outcome {
    server(TokenAt(server, k))
  }

  /** Outcome k names a next page. */
  predicate Continues(server: Server, k: nat) {
    var o := OutcomeAt(server, k);
    o.Page? && o.next != NO_TOKEN
  }

  /** Page k belongs to the chain: every outcome before it names a next page. */
  ghost predicate Linked(server: Server, k: nat) {
    forall i: nat | i < k :: Continues(server, i)
  }

  /** The chain has exactly n outcomes. */
  ghost predicate ChainOf(server: Server, n: nat) {
    0 < n && Linked(server, n - 1) && !Continues(server, n - 1)
  }

  function RowsOf(o: Outcome): seq<Row> {
    if o.Page? then o.rows else []
  }

  /** The rows of the first k outcomes, in order. */
  function RowsBefore(server: Server, k: nat): seq<Row> {
    if k == 0 then [] else RowsBefore(server, k - 1) + RowsOf(OutcomeAt(server, k - 1))
  }

  /** An empty page that follows a page with rows: the case the driver cannot get past. */
  predicate LaterEmpty(server: Server, k: nat) {
    var o := OutcomeAt(server, k);
    o.Page? && o.rows == [] && RowsBefore(server, k) != []
  }

  ghost predicate NoLaterEmpty(server: Server) {
    forall k: nat | Linked(server, k) :: !LaterEmpty(server, k)
  }

  /** Behind page k of a chain of n outcomes there are only empty pages. */
  ghost predicate NothingBehind(server: Server, k: nat, n: nat) {
    forall j: nat | k < j < n :: OutcomeAt(server, j).Page? && RowsOf(OutcomeAt(server, j)) == []
  }

  /** An empty page that follows rows is followed by nothing else. */
  ghost predicate NoRowsLost(server: Server, n: nat) {
    forall k: nat | k < n && LaterEmpty(server, k) :: NothingBehind(server, k, n)
  }

  /** One of the first n outcomes is a failure, has rows, or is the last: Execute gets no further. */
  ghost predicate ExecuteEnds(server: Server, n: nat) {
    exists k: nat :: k < n && !(Continues(server, k) && RowsOf(OutcomeAt(server, k)) == [])
  }

  // The answers a caller should get

  function Give(readable: Reader, row: Row): Answer {
    if readable(row) then Fetched(row) else Unreadable(row)
  }

  function Gives(readable: Reader, rows: seq<Row>): (answers: seq<Answer>)
    ensures |answers| == |rows|
    ensures NoMore !in answers && Failed !in answers
  {
    seq(|rows|, i requires 0 <= i < |rows| => Give(readable, rows[i]))
  }

  /** One answer per row of the first k outcomes; a failure that follows rows is told once. */
  function Script(server: Server, readable: Reader, k: nat): seq<Answer> {
    Gives(readable, RowsBefore(server, k))
    + if k > 0 && OutcomeAt(server, k - 1).Failure? && RowsBefore(server, k) != [] then [Failed] else []
  }

  /** The first n answers of a script that is followed by "no more data" forever. */
  function Pad(script: seq<Answer>, n: nat): (answers: seq<Answer>)
    ensures |answers| == n
  {
    seq(n, i requires 0 <= i < n => if i < |script| then script[i] else NoMore)
  }

  /**
    What a caller should hear at place i of a chain of n outcomes: the row at that place, read if its columns
    convert; behind the rows the failure that ends the chain, once; then nothing for ever.
  */
  predicate Tells(server: Server, readable: Reader, n: nat, i: nat, answer: Answer) {
    var rows := RowsBefore(server, n);
    if i < |rows| then answer == if readable(rows[i]) then Fetched(rows[i]) else Unreadable(rows[i])
    else answer == if i == |rows| && FailsBehindRows(server, n) then Failed else NoMore
  }

  /** The last of n outcomes is a failure, and rows came before it. */
  predicate FailsBehindRows(server: Server, n: nat) {
    n > 0 && OutcomeAt(server, n - 1).Failure? && RowsBefore(server, n) != []
  }

  lemma PadTells(server: Server, readable: Reader, n: nat, m: nat, i: nat)
    requires i < m
    ensures Tells(server, readable, n, i, Pad(Script(server, readable, n), m)[i])
  {
  }

  // Facts about prefixes

  lemma {:induction false} RowsBeforeGrows(server: Server, j: nat, k: nat)
    requires j <= k
    ensures RowsBefore(server, j) <= RowsBefore(server, k)
    decreases k
  {
    if j < k {
      RowsBeforeGrows(server, j, k - 1);
    }
  }

  /** Outcomes add no rows exactly when none of them has any. */
  lemma {:induction false} RowsStop(server: Server, j: nat, k: nat)
    requires j <= k
    ensures |RowsBefore(server, j)| <= |RowsBefore(server, k)|
    ensures |RowsBefore(server, j)| == |RowsBefore(server, k)|
            <==> forall i: nat | j <= i < k :: RowsOf(OutcomeAt(server, i)) == []
    decreases k
  {
    if j < k {
      RowsStop(server, j, k - 1);
    }
  }

  /** Going on along the chain never changes an answer already determined. */
  lemma {:induction false} ScriptGrows(server: Server, readable: Reader, j: nat, k: nat)
    requires j <= k
    requires 0 < k ==> Linked(server, k - 1)
    ensures Script(server, readable, j) <= Script(server, readable, k)
  {
    RowsBeforeGrows(server, j, k);
    if 0 < j < k {
      assert Continues(server, j - 1);
    }
  }

  lemma PadEnds(script: seq<Answer>, n: nat)
    requires |script| <= n
    ensures Pad(script, n) + [NoMore] == Pad(script, n + 1)
  {
  }

  /** The number of answers up to and including the last one that is not "no more data". */
  function Real(answers: seq<Answer>): (n: nat)
    ensures n <= |answers|
  {
    if answers == [] then 0
    else if answers[|answers| - 1] == NoMore then Real(answers[..|answers| - 1])
    else |answers|
  }

  lemma RealSnoc(answers: seq<Answer>, answer: Answer)
    ensures Real(answers + [answer]) == if answer == NoMore then Real(answers) else |answers| + 1
  {
  }

  /** The script is complete at a later empty page exactly when nothing is behind it. */
  lemma ScriptStops(server: Server, readable: Reader, k: nat, n: nat)
    requires ChainOf(server, n) && k < n && LaterEmpty(server, k)
    ensures |Script(server, readable, k + 1)| <= |Script(server, readable, n)|
    ensures |Script(server, readable, k + 1)| == |Script(server, readable, n)| <==> NothingBehind(server, k, n)
  {
    RowsStop(server, k, k + 1);
    RowsStop(server, k + 1, n);
    if NothingBehind(server, k, n) {
      assert OutcomeAt(server, n - 1).Page?;
    } else {
      var j: nat :| k < j < n && !(OutcomeAt(server, j).Page? && RowsOf(OutcomeAt(server, j)) == []);
      if OutcomeAt(server, j).Failure? {
        assert !Continues(server, j);
        assert j == n - 1 && RowsBefore(server, n) != [];
      }
    }
  }
}
