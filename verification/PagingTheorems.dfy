/**
  The main results about asynchronous paging, over every interleaving.
*/
module PagingTheorems {
  import opened OdbcTypes
  import opened ResultPages
  import opened PagingProtocol
  import opened PagingSafety

  // Exactly once, in order

  /** For any server whatever: the answers given so far follow the chain, each row once. */
  lemma RowsComeInOrder(server: Server, readable: Reader, s: State)
    requires Reachable(server, readable, s)
    ensures var script := Script(server, readable, s.taken);
      Real(s.answers) <= |script| && s.answers == Pad(script[..Real(s.answers)], |s.answers|)
  {
    ReachableKeeps(server, readable, s);
  }

  lemma TakenWithinChain(server: Server, readable: Reader, n: nat, s: State)
    requires ChainOf(server, n) && Reachable(server, readable, s)
    ensures s.taken <= n
  {
    ReachableKeeps(server, readable, s);
  }

  lemma NothingLostWithoutLaterEmpty(server: Server, n: nat)
    requires ChainOf(server, n) && NoLaterEmpty(server)
    ensures NoRowsLost(server, n)
  {
    assert forall k: nat | k < n :: Linked(server, k);
  }

  lemma OverAtAnEnd(server: Server, s: State)
    requires Control(server, s) && Over(server, s) && !s.isClosing && s.answers != []
    ensures s.taken > 0 && (LaterEmpty(server, s.taken - 1) || !Continues(server, s.taken - 1))
  {
    match s.pc
    case Fresh =>
    case Executing =>
    case Joining(token) =>
    case Waiting(asleep) =>
    case Idle =>
    case Closing =>
  }

  /** Once "no more data" was told, all outcomes taken were told, and the caller is at an end. */
  lemma OverIsTold(server: Server, readable: Reader, s: State)
    requires Reachable(server, readable, s) && !s.isClosing && |s.answers| > Real(s.answers)
    ensures s.taken > 0 && s.answers == Pad(Script(server, readable, s.taken), |s.answers|)
    ensures LaterEmpty(server, s.taken - 1) || !Continues(server, s.taken - 1)
  {
    ReachableKeeps(server, readable, s);
    OverAtAnEnd(server, s);
    assert Real(s.answers) == |Script(server, readable, s.taken)|;
  }

  lemma SamePrefix(a: seq<Answer>, b: seq<Answer>)
    requires a <= b && |a| == |b|
    ensures a == b
  {
  }

  /** If nothing follows a later empty page, the script stops there. */
  lemma CompleteAtEmptyPage(server: Server, readable: Reader, n: nat, k: nat)
    requires ChainOf(server, n) && NoRowsLost(server, n) && k < n && LaterEmpty(server, k)
    ensures Script(server, readable, k + 1) == Script(server, readable, n)
  {
    ScriptStops(server, readable, k, n);
    ScriptGrows(server, readable, k + 1, n);
    SamePrefix(Script(server, readable, k + 1), Script(server, readable, n));
  }

  lemma AtTheEndOfTheChain(server: Server, n: nat, k: nat)
    requires ChainOf(server, n) && 0 < k <= n && !Continues(server, k - 1)
    ensures k == n
  {
  }

  lemma CompleteAtTheEnd(server: Server, readable: Reader, n: nat, k: nat)
    requires ChainOf(server, n) && NoRowsLost(server, n) && 0 < k <= n
    requires LaterEmpty(server, k - 1) || !Continues(server, k - 1)
    ensures Script(server, readable, k) == Script(server, readable, n)
  {
    if LaterEmpty(server, k - 1) {
      CompleteAtEmptyPage(server, readable, n, k - 1);
    } else {
      AtTheEndOfTheChain(server, n, k);
    }
  }

  /** "No more data" is told before Close only when the whole chain has been told. */
  lemma OverMeansComplete(server: Server, readable: Reader, n: nat, s: State)
    requires ChainOf(server, n) && NoRowsLost(server, n) && Reachable(server, readable, s)
    requires !s.isClosing && |s.answers| > Real(s.answers)
    ensures Script(server, readable, s.taken) == Script(server, readable, n)
    ensures s.answers == Pad(Script(server, readable, n), |s.answers|)
  {
    OverIsTold(server, readable, s);
    TakenWithinChain(server, readable, n, s);
    CompleteAtTheEnd(server, readable, n, s.taken);
  }

  /** Every row once, then "no more data" for ever, if nothing follows an empty page behind rows. */
  lemma EveryRowOnceThenNoMore(server: Server, readable: Reader, n: nat, s: State)
    requires ChainOf(server, n) && NoRowsLost(server, n)
    requires Reachable(server, readable, s) && !s.isClosing
    ensures s.answers == Pad(Script(server, readable, n), |s.answers|)
  {
    ReachableKeeps(server, readable, s);
    TakenWithinChain(server, readable, n, s);
    if |s.answers| > Real(s.answers) {
      OverMeansComplete(server, readable, n, s);
    } else if s.taken > 0 {
      ScriptGrows(server, readable, s.taken, n);
    }
  }

  /** The same, answer by answer: the row at its place, then the failure that ends the chain, then nothing. */
  lemma EveryAnswerTellsItsRow(server: Server, readable: Reader, n: nat, s: State, i: nat)
    requires ChainOf(server, n) && NoRowsLost(server, n)
    requires Reachable(server, readable, s) && !s.isClosing && i < |s.answers|
    ensures Tells(server, readable, n, i, s.answers[i])
  {
    EveryRowOnceThenNoMore(server, readable, n, s);
    PadTells(server, readable, n, |s.answers|, i);
  }

  // The shared request and the queue

  lemma WhoWritesTheRequest(server: Server, readable: Reader, s: State, a: Action)
    requires Enabled(s, a) && Apply(server, readable, s, a).request != s.request
    ensures a.Join? || a.QueryFirst?
  {
  }

  /** The request is written only when every thread that was handed a reference to it has exited. */
  lemma RequestWrittenAlone(server: Server, readable: Reader, s: State, a: Action)
    requires Reachable(server, readable, s) && Enabled(s, a)
    requires Apply(server, readable, s, a).request != s.request
    ensures forall t | t in s.threads :: t == Exited
  {
    ReachableKeeps(server, readable, s);
    WhoWritesTheRequest(server, readable, s, a);
  }

  lemma SentWithTaken(server: Server, s: State)
    requires Control(server, s)
    ensures s.taken <= |s.sent| <= s.taken + 1
    ensures |s.sent| == s.taken + 1 && s.taken > 0 ==> Continues(server, s.taken - 1)
  {
  }

  /** Requests go out in token order, one per page, at most one ahead of the caller. */
  lemma EveryPageRequestedOnce(server: Server, readable: Reader, s: State)
    requires Reachable(server, readable, s)
    ensures s.taken <= |s.sent| <= s.taken + 1
    ensures forall i | 0 <= i < |s.sent| :: s.sent[i] == TokenAt(server, i)
    ensures s.sent != [] ==> Linked(server, |s.sent| - 1)
  {
    ReachableKeeps(server, readable, s);
    SentWithTaken(server, s);
    if |s.sent| == s.taken + 1 {
      LinkedNext(server, s.taken);
    }
  }

  /** One page at most is queued, one thread at most is unjoined, and no thread ever blocks. */
  lemma ThreadsNeverBlock(server: Server, readable: Reader, s: State)
    requires Reachable(server, readable, s)
    ensures |s.queue| <= 1 && |s.threads| <= 1
    ensures forall t | t in s.threads :: !t.Asleep? && (t.Arriving? ==> s.queue == [])
    ensures forall i :: !Enabled(s, ThreadSleep(i))
  {
    ReachableBounds(server, readable, s);
    assert s.threads == [] || s.threads == [s.threads[0]];
  }
}
