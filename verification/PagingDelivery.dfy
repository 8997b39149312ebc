/** What the driver delivers of a finite chain: all of it exactly when nothing follows a later empty page. */
module PagingDelivery {
  import opened OdbcTypes
  import opened ResultPages
  import opened PagingProtocol
  import opened PagingSafety
  import opened PagingTheorems
  import opened PagingLiveness

  /** In every reachable state before Close the answers are those of the whole chain. */
  ghost predicate DeliversAll(server: Server, readable: Reader, n: nat) {
    forall s | Reachable(server, readable, s) && !s.isClosing ::
      s.answers == Pad(Script(server, readable, n), |s.answers|)
  }

  /** At the end of a page as many answers were given as rows were read. */
  lemma AnsweredPageRead(server: Server, readable: Reader, s: State, k: nat)
    requires Reachable(server, readable, s) && PageRead(server, s, k)
    ensures |s.answers| == |RowsBefore(server, k)|
  {
    ReachableKeeps(server, readable, s);
    assert !Starved(server, s);
    assert Owed(server, readable, s) == |RowsBefore(server, k)|;
  }

  /** The call that takes a later empty page is told "no more data", whatever the chain holds behind it. */
  lemma EmptyPageEndsTheAnswers(server: Server, readable: Reader, k: nat) returns (s: State)
    requires Linked(server, k) && LaterEmpty(server, k)
    requires forall j: nat | j < k :: !LaterEmpty(server, j)
    ensures Reachable(server, readable, s) && s.pc == Idle && !s.isClosing
    ensures Real(s.answers) == |Script(server, readable, k + 1)| < |s.answers|
    ensures s.answers[|s.answers| - 1] == NoMore
  {
    var s0 := ReachPage(server, readable, k);
    assert Continues(server, k - 1);
    AnsweredPageRead(server, readable, s0, k);
    s := FetchAcross(server, readable, s0, k);
    IdleStarved(server, readable, s);
    ReachableKeeps(server, readable, s);
    RowsStop(server, k, k + 1);
  }

  /** Rows, or a failure, behind a later empty page: some run is told "no more data" too early. */
  lemma RowsBehindEmptyPageAreLost(server: Server, readable: Reader, n: nat, k: nat) returns (s: State)
    requires ChainOf(server, n) && k < n && LaterEmpty(server, k) && !NothingBehind(server, k, n)
    ensures Reachable(server, readable, s) && s.pc == Idle && !s.isClosing
    ensures Real(s.answers) < |s.answers| && Real(s.answers) < |Script(server, readable, n)|
    ensures s.answers != Pad(Script(server, readable, n), |s.answers|)
  {
    var j := FirstLaterEmpty(server, k);
    s := EmptyPageEndsTheAnswers(server, readable, j);
    ScriptStops(server, readable, j, n);
    var script := Script(server, readable, n);
    if s.answers == Pad(script, |s.answers|) {
      assert s.answers[|s.answers| - 1] == NoMore;
      assert |s.answers| > |script|;
      RealOfPad(script, |s.answers|);
    }
  }

  lemma {:induction false} RealOfPad(script: seq<Answer>, n: nat)
    requires NoMore !in script && n >= |script|
    ensures Real(Pad(script, n)) == |script|
    decreases n
  {
    if n > |script| {
      RealOfPad(script, n - 1);
      assert Pad(script, n)[..n - 1] == Pad(script, n - 1);
    } else if n > 0 {
      assert Pad(script, n)[n - 1] == script[n - 1];
    }
  }

  /** The driver delivers a chain exactly if no row and no failure follows an empty page behind rows. */
  lemma DeliversAllExactly(server: Server, readable: Reader, n: nat)
    requires ChainOf(server, n)
    ensures DeliversAll(server, readable, n) <==> NoRowsLost(server, n)
  {
    if NoRowsLost(server, n) {
      forall s | Reachable(server, readable, s) && !s.isClosing
        ensures s.answers == Pad(Script(server, readable, n), |s.answers|)
      {
        EveryRowOnceThenNoMore(server, readable, n, s);
      }
    } else {
      var k: nat :| k < n && LaterEmpty(server, k) && !NothingBehind(server, k, n);
      var s := RowsBehindEmptyPageAreLost(server, readable, n, k);
    }
  }
}
