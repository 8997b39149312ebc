/**
  Every call returns, on every interleaving, exactly when no page after the first rows is empty.
*/
module PagingLiveness {
  import opened OdbcTypes
  import opened ResultPages
  import opened PagingProtocol
  import opened PagingSafety

  /** The driver's own actions, other than wake-ups nobody asked for. */
  predicate Working(a: Action) {
    !ByCaller(a) && !Spurious(a)
  }

  /** Between two calls, or before the first. */
  predicate AtCaller(s: State) {
    s.pc == Fresh || s.pc == Idle
  }

  // A bound on the work left in a call

  function ThreadRank(t: ThreadPc): nat {
    match t
    case Querying => 5
    case Arriving(_) => 4
    case Asleep(_) => 3
    case Leaving => 2
    case Exited => 1
  }

  /** There is never more than one unjoined thread. */
  function ThreadsRank(threads: seq<ThreadPc>): nat {
    if threads == [] then 0 else ThreadRank(threads[0])
  }

  function MainRank(n: nat, s: State): nat {
    match s.pc
    case Fresh => 0
    case Executing => 6 + if s.taken < n then n - s.taken else 0
    case Idle => 0
    case Waiting(asleep) => if asleep then 7 else 8
    case Joining(_) => 6
    case Closing => 1
  }

  /** For Execute the bound needs a number n of outcomes that end it; afterwards n does not matter. */
  function Rank(n: nat, s: State): nat {
    MainRank(n, s) + ThreadsRank(s.threads)
  }

  lemma MainRankDrops(server: Server, readable: Reader, n: nat, s: State, a: Action)
    requires Enabled(s, a) && (a.FallAsleep? || a.Take? || a.CloseDone?)
    ensures Rank(n, Apply(server, readable, s, a)) < Rank(n, s)
  {
  }

  lemma QueryRankDrops(server: Server, readable: Reader, n: nat, s: State)
    requires s.pc == Executing && s.threads == [] && s.taken < n
    ensures Rank(n, ApplyQueryFirst(server, s)) < Rank(n, s)
  {
  }

  lemma JoinRankDrops(server: Server, readable: Reader, n: nat, s: State, a: Action)
    requires Enabled(s, a) && AllQuiet(s.threads) && (a.Join? || a.CloseJoin?)
    ensures Rank(n, Apply(server, readable, s, a)) < Rank(n, s)
  {
  }

  lemma ThreadRankDrops(server: Server, readable: Reader, n: nat, s: State, a: Action)
    requires Enabled(s, a) && |s.threads| == 1 && !s.threads[0].Asleep?
    requires a.ThreadQuery? || a.ThreadPush? || a.ThreadExit?
    ensures Rank(n, Apply(server, readable, s, a)) < Rank(n, s)
  {
  }

  lemma NoRowsYet(server: Server, j: nat, k: nat)
    requires j < k && RowsBefore(server, k) == []
    ensures RowsOf(OutcomeAt(server, j)) == []
  {
  }

  lemma LinkedContinues(server: Server, j: nat, k: nat)
    requires j < k && Linked(server, k - 1) && Continues(server, k - 1)
    ensures Continues(server, j)
  {
  }

  /** Execute asks for no page after the first outcome that ends it. */
  lemma ExecutingEnds(server: Server, n: nat, s: State)
    requires Control(server, s) && s.pc == Executing && ExecuteEnds(server, n)
    ensures s.taken < n
  {
    var k: nat :| k < n && !(Continues(server, k) && RowsOf(OutcomeAt(server, k)) == []);
    if k < s.taken {
      NoRowsYet(server, k, s.taken);
      LinkedContinues(server, k, s.taken);
      assert false;
    }
  }

  lemma RankDrops(server: Server, readable: Reader, n: nat, s: State, a: Action)
    requires Control(server, s) && Enabled(s, a) && Working(a)
    requires s.pc == Executing ==> ExecuteEnds(server, n)
    ensures Rank(n, Apply(server, readable, s, a)) < Rank(n, s)
    ensures Apply(server, readable, s, a).pc == Executing ==> s.pc == Executing
  {
    match a
    case QueryFirst =>
      ExecutingEnds(server, n, s);
      QueryRankDrops(server, readable, n, s);
    case Join => JoinRankDrops(server, readable, n, s, a);
    case CloseJoin => JoinRankDrops(server, readable, n, s, a);
    case FallAsleep => MainRankDrops(server, readable, n, s, a);
    case Take => MainRankDrops(server, readable, n, s, a);
    case CloseDone => MainRankDrops(server, readable, n, s, a);
    case ThreadQuery(_) => ThreadRankDrops(server, readable, n, s, a);
    case ThreadPush(_, _) => ThreadRankDrops(server, readable, n, s, a);
    case ThreadExit(_) => ThreadRankDrops(server, readable, n, s, a);
    case ThreadSleep(_) => ThreadNeverSleeps(server, s, a);
  }

  /** An action the driver can take while a call is open. */
  function NextOf(s: State): Action
    requires !AtCaller(s)
  {
    if s.pc == Executing then QueryFirst
    else if s.pc == Waiting(false) && s.queue != [] then Take
    else if s.threads == [] then (if s.pc == Closing then CloseDone else Join)
    else match s.threads[0]
      case Querying => ThreadQuery(0)
      case Arriving(_) => ThreadPush(0, if s.pc == Waiting(true) then Main else Nobody)
      case Asleep(_) => ThreadWakeSpuriously(0)
      case Leaving => ThreadExit(0)
      case Exited => if s.pc == Closing then CloseJoin else Join
  }

  /** Deadlock freedom: an open call can always go on, unless the driver took a later empty page. */
  lemma Progress(server: Server, s: State)
    requires Control(server, s) && !AtCaller(s)
    requires !(s.pc.Waiting? && Starved(server, s))
    ensures Enabled(s, NextOf(s)) && Working(NextOf(s))
  {
    if s.pc.Waiting? {
      assert OnPage(server, s) && InFlight(server, s);
    }
  }

  /** While a page is awaited, a thread is on its way to push it. */
  lemma AwaitedPageComes(server: Server, readable: Reader, s: State)
    requires Reachable(server, readable, s) && s.pc.Waiting? && !Starved(server, s) && s.queue == []
    ensures s.threads != [] && s.threads[0] != Exited
  {
    ReachableKeeps(server, readable, s);
  }

  /** Every schedule of the driver's own work is finite: no run of it is longer than the rank. */
  lemma {:induction false} WorkIsBounded(server: Server, readable: Reader, n: nat, s: State, acts: seq<Action>)
    requires Control(server, s) && Valid(server, readable, s, acts)
    requires s.pc == Executing ==> ExecuteEnds(server, n)
    requires forall a | a in acts :: Working(a)
    ensures |acts| <= Rank(n, s)
    decreases |acts|
  {
    if acts != [] {
      RankDrops(server, readable, n, s, acts[0]);
      ControlStep(server, readable, s, acts[0]);
      WorkIsBounded(server, readable, n, Apply(server, readable, s, acts[0]), acts[1..]);
    }
  }

  // What a later empty page does

  /** The main thread waits and nothing will ever be pushed. */
  predicate Hung(server: Server, s: State) {
    s.pc.Waiting? && Starved(server, s) && AtRest(s)
  }

  /** For any server: the driver's work ends only by returning to the caller, or in that one wait. */
  lemma EveryCallReturnsOrHangs(server: Server, readable: Reader, s: State)
    requires Reachable(server, readable, s)
    requires forall a | Working(a) :: !Enabled(s, a)
    ensures AtCaller(s) || Hung(server, s)
  {
    ReachableKeeps(server, readable, s);
    if !AtCaller(s) && !(s.pc.Waiting? && Starved(server, s)) {
      Progress(server, s);
      assert false;
    }
  }

  /** Nothing ends the wait: neither the driver's work nor a spurious wake-up, and the caller cannot act. */
  lemma {:induction false} HungForEver(server: Server, readable: Reader, s: State, acts: seq<Action>)
    requires Hung(server, s) && Valid(server, readable, s, acts)
    ensures Hung(server, After(server, readable, s, acts))
    decreases |acts|
  {
    if acts != [] {
      var s' := Apply(server, readable, s, acts[0]);
      assert acts[0].ThreadExit? || acts[0].FallAsleep? || acts[0].WakeSpuriously?;
      assert s.threads == [Leaving] ==> s.threads[0 := Exited] == [Exited];
      HungForEver(server, readable, s', acts[1..]);
    }
  }

  /** The page after the current one will be taken; it is not an empty page already taken. */
  predicate Switching(server: Server, s: State) {
    s.pc.Joining? || (s.pc.Waiting? && !Starved(server, s))
  }

  /** The number of outcomes taken when the open FetchNextRow call returns. */
  function TakenAtReturn(s: State): nat {
    if s.pc.Waiting? then s.taken + 1 else s.taken
  }

  lemma SwitchStep(server: Server, readable: Reader, s: State)
    requires Control(server, s) && Switching(server, s)
    ensures Enabled(s, NextOf(s)) && Working(NextOf(s))
    ensures var s' := Apply(server, readable, s, NextOf(s));
      (s'.pc == Idle || Switching(server, s')) && TakenAtReturn(s') == TakenAtReturn(s) && !s'.isClosing
      && |s'.answers| == |s.answers| + if s'.pc == Idle then 1 else 0
  {
    Progress(server, s);
    if s.pc.Waiting? && s.queue == [] {
      assert Apply(server, readable, s, NextOf(s)).pc.Waiting?;
    }
  }

  /** Some schedule completes an open FetchNextRow call. */
  lemma {:induction false} Settle(server: Server, readable: Reader, s: State) returns (acts: seq<Action>)
    requires Control(server, s) && Switching(server, s)
    ensures Valid(server, readable, s, acts)
    ensures var s' := After(server, readable, s, acts);
      s'.pc == Idle && s'.taken == TakenAtReturn(s) && !s'.isClosing && |s'.answers| == |s.answers| + 1
    decreases Rank(0, s)
  {
    var a := NextOf(s);
    SwitchStep(server, readable, s);
    ControlStep(server, readable, s, a);
    RankDrops(server, readable, 0, s, a);
    var s1 := Apply(server, readable, s, a);
    var rest := [];
    if s1.pc != Idle {
      rest := Settle(server, readable, s1);
    }
    acts := [a] + rest;
    assert acts[1..] == rest;
  }

  /** Read to the end of the current page. */
  predicate PageRead(server: Server, s: State, k: nat) {
    && s.pc == Idle && s.taken == k && OnPage(server, s) && !s.isClosing
    && s.cursor.value.curPos == |s.cursor.value.rows|
  }

  lemma {:induction false} ReadPage(server: Server, readable: Reader, s: State) returns (acts: seq<Action>)
    requires s.pc == Idle && OnPage(server, s) && !s.isClosing
    requires s.cursor.value.curPos <= |s.cursor.value.rows|
    ensures Valid(server, readable, s, acts) && PageRead(server, After(server, readable, s, acts), s.taken)
    decreases |s.cursor.value.rows| - s.cursor.value.curPos
  {
    acts := [];
    if s.cursor.value.curPos < |s.cursor.value.rows| {
      var rest := ReadPage(server, readable, ApplyCallFetch(readable, s));
      acts := [CallFetch] + rest;
      assert acts[1..] == rest;
    }
  }

  /** Leading empty pages are skipped by Execute. */
  lemma {:induction false} SkipEmptyPages(server: Server, readable: Reader, k: nat) returns (s: State)
    requires Linked(server, k) && RowsBefore(server, k) == []
    ensures Reachable(server, readable, s) && s.pc == Executing && s.taken == k
  {
    if k == 0 {
      assert Valid(server, readable, INIT, []);
      ReachOn(server, readable, INIT, [Execute]);
      s := After(server, readable, INIT, [Execute]);
    } else {
      var s0 := SkipEmptyPages(server, readable, k - 1);
      ReachableKeeps(server, readable, s0);
      assert Continues(server, k - 1);
      ReachOn(server, readable, s0, [QueryFirst]);
      s := After(server, readable, s0, [QueryFirst]);
    }
  }

  /** Calling FetchNextRow at the end of a page that names a next one takes the next outcome. */
  lemma FetchAcross(server: Server, readable: Reader, s: State, k: nat) returns (s': State)
    requires Reachable(server, readable, s) && PageRead(server, s, k) && Continues(server, k - 1)
    ensures Reachable(server, readable, s') && s'.pc == Idle && s'.taken == k + 1 && !s'.isClosing
    ensures |s'.answers| == |s.answers| + 1
  {
    var s1 := ApplyCallFetch(readable, s);
    ReachableKeeps(server, readable, s);
    ControlCallFetch(server, readable, s);
    assert Switching(server, s1);
    var acts := Settle(server, readable, s1);
    assert After(server, readable, s, [CallFetch]) == s1;
    ReachOn(server, readable, s, [CallFetch]);
    ReachOn(server, readable, s1, acts);
    s' := After(server, readable, s1, acts);
  }

  /** An idle state that took an outcome with rows and a next page is on that page. */
  lemma IdleOnPage(server: Server, readable: Reader, s: State)
    requires Reachable(server, readable, s) && s.pc == Idle && !s.isClosing && s.taken > 0
    requires Continues(server, s.taken - 1) && !LaterEmpty(server, s.taken - 1)
    requires RowsBefore(server, s.taken) != []
    ensures OnPage(server, s) && s.cursor.value.curPos <= |s.cursor.value.rows|
  {
    ReachableKeeps(server, readable, s);
  }

  lemma FinishPage(server: Server, readable: Reader, s: State) returns (s': State)
    requires Reachable(server, readable, s) && s.pc == Idle && !s.isClosing && s.taken > 0
    requires Continues(server, s.taken - 1) && !LaterEmpty(server, s.taken - 1)
    requires RowsBefore(server, s.taken) != []
    ensures Reachable(server, readable, s') && PageRead(server, s', s.taken)
  {
    IdleOnPage(server, readable, s);
    var acts := ReadPage(server, readable, s);
    ReachOn(server, readable, s, acts);
    s' := After(server, readable, s, acts);
  }

  lemma ReachFirstPage(server: Server, readable: Reader, k: nat) returns (s: State)
    requires 0 < k && Linked(server, k) && RowsBefore(server, k - 1) == [] && RowsBefore(server, k) != []
    ensures Reachable(server, readable, s) && s.pc == Idle && s.taken == k && !s.isClosing
  {
    var s0 := SkipEmptyPages(server, readable, k - 1);
    ReachableKeeps(server, readable, s0);
    assert s0.request == TokenAt(server, k - 1);
    assert After(server, readable, s0, [QueryFirst]) == ApplyQueryFirst(server, s0);
    ReachOn(server, readable, s0, [QueryFirst]);
    s := ApplyQueryFirst(server, s0);
  }

  lemma ReadNextPage(server: Server, readable: Reader, s: State, k: nat) returns (s': State)
    requires Reachable(server, readable, s) && PageRead(server, s, k) && Continues(server, k - 1)
    requires Continues(server, k) && !LaterEmpty(server, k) && RowsBefore(server, k + 1) != []
    ensures Reachable(server, readable, s') && PageRead(server, s', k + 1)
  {
    s' := FetchAcross(server, readable, s, k);
    s' := FinishPage(server, readable, s');
  }

  lemma ReadFirstPage(server: Server, readable: Reader, k: nat) returns (s: State)
    requires 0 < k && Linked(server, k) && RowsBefore(server, k - 1) == [] && RowsBefore(server, k) != []
    ensures Reachable(server, readable, s) && PageRead(server, s, k)
  {
    s := ReachFirstPage(server, readable, k);
    assert Continues(server, k - 1);
    s := FinishPage(server, readable, s);
  }

  lemma {:induction false} ReachPage(server: Server, readable: Reader, k: nat) returns (s: State)
    requires 0 < k && Linked(server, k) && RowsBefore(server, k) != []
    requires forall j: nat | j < k :: !LaterEmpty(server, j)
    ensures Reachable(server, readable, s) && PageRead(server, s, k)
  {
    if RowsBefore(server, k - 1) == [] {
      s := ReadFirstPage(server, readable, k);
    } else {
      assert Continues(server, k - 2) && Continues(server, k - 1) && !LaterEmpty(server, k - 1);
      s := ReachPage(server, readable, k - 1);
      s := ReadNextPage(server, readable, s, k - 1);
    }
  }

  /** An idle state that took a later empty page. */
  lemma IdleStarved(server: Server, readable: Reader, s: State)
    requires Reachable(server, readable, s) && s.pc == Idle && !s.isClosing && s.taken > 0
    requires LaterEmpty(server, s.taken - 1)
    ensures Starved(server, s) && AtRest(s)
  {
    ReachableKeeps(server, readable, s);
    assert !OnPage(server, s);
  }

  /** A chain with a later empty page: some run ends in a call that hangs for ever. */
  lemma LaterEmptyHangs(server: Server, readable: Reader, k: nat) returns (s: State)
    requires Linked(server, k) && LaterEmpty(server, k)
    requires forall j: nat | j < k :: !LaterEmpty(server, j)
    ensures Reachable(server, readable, s) && Hung(server, s)
  {
    var s0 := ReachPage(server, readable, k);
    assert Continues(server, k - 1);
    var s1 := FetchAcross(server, readable, s0, k);
    IdleStarved(server, readable, s1);
    ReachOn(server, readable, s1, [CallFetch]);
    s := ApplyCallFetch(readable, s1);
    assert After(server, readable, s1, [CallFetch]) == s;
  }

  // Both directions

  /** No step of the driver is left. */
  ghost predicate Stuck(s: State) {
    forall a | Working(a) :: !Enabled(s, a)
  }

  ghost predicate AllWorking(acts: seq<Action>) {
    forall a | a in acts :: Working(a)
  }

  /** Every schedule of the driver's steps from s is short, and when none is left the caller is back. */
  ghost predicate Returns(server: Server, readable: Reader, n: nat, s: State) {
    forall acts | Valid(server, readable, s, acts) && AllWorking(acts) ::
      |acts| <= Rank(n, s)
      && (Stuck(After(server, readable, s, acts)) ==> AtCaller(After(server, readable, s, acts)))
  }

  /** Every call returns, whatever the schedule, from every reachable state. */
  ghost predicate EveryCallReturns(server: Server, readable: Reader) {
    forall n: nat, s | Reachable(server, readable, s) && (s.pc == Executing ==> ExecuteEnds(server, n)) ::
      Returns(server, readable, n, s)
  }

  lemma {:induction false} FirstLaterEmpty(server: Server, k: nat) returns (j: nat)
    requires LaterEmpty(server, k)
    ensures j <= k && LaterEmpty(server, j) && forall i: nat | i < j :: !LaterEmpty(server, i)
  {
    if i: nat :| i < k && LaterEmpty(server, i) {
      j := FirstLaterEmpty(server, i);
    } else {
      j := k;
    }
  }

  lemma HungOnLaterEmpty(server: Server, readable: Reader, s: State)
    requires Reachable(server, readable, s) && Hung(server, s)
    ensures !NoLaterEmpty(server)
  {
    ReachableKeeps(server, readable, s);
    assert Linked(server, s.taken - 1);
  }

  lemma FedCallsReturn(server: Server, readable: Reader, n: nat, s: State)
    requires NoLaterEmpty(server) && Reachable(server, readable, s)
    requires s.pc == Executing ==> ExecuteEnds(server, n)
    ensures Returns(server, readable, n, s)
  {
    ReachableKeeps(server, readable, s);
    forall acts | Valid(server, readable, s, acts) && AllWorking(acts)
      ensures |acts| <= Rank(n, s)
      ensures Stuck(After(server, readable, s, acts)) ==> AtCaller(After(server, readable, s, acts))
    {
      WorkIsBounded(server, readable, n, s, acts);
      ReachOn(server, readable, s, acts);
      var s' := After(server, readable, s, acts);
      if Stuck(s') && !AtCaller(s') {
        EveryCallReturnsOrHangs(server, readable, s');
        HungOnLaterEmpty(server, readable, s');
      }
    }
  }

  lemma Prepend(server: Server, readable: Reader, s: State, a: Action, rest: seq<Action>)
    requires Enabled(s, a) && Working(a) && AllWorking(rest)
    requires Valid(server, readable, Apply(server, readable, s, a), rest)
    ensures Valid(server, readable, s, [a] + rest) && AllWorking([a] + rest)
    ensures After(server, readable, s, [a] + rest) == After(server, readable, Apply(server, readable, s, a), rest)
  {
    assert ([a] + rest)[1..] == rest;
  }

  /** Any schedule of the driver's steps can be carried on until no step is left. */
  lemma {:induction false} RunOut(server: Server, readable: Reader, s: State) returns (acts: seq<Action>)
    requires Control(server, s) && s.pc != Executing
    ensures Valid(server, readable, s, acts) && AllWorking(acts) && Stuck(After(server, readable, s, acts))
    decreases Rank(0, s)
  {
    acts := [];
    if !Stuck(s) {
      var a :| Working(a) && Enabled(s, a);
      var s1 := Apply(server, readable, s, a);
      assert Rank(0, s1) < Rank(0, s) && s1.pc != Executing by {
        RankDrops(server, readable, 0, s, a);
      }
      assert Control(server, s1) by {
        ControlStep(server, readable, s, a);
      }
      var rest := RunOut(server, readable, s1);
      Prepend(server, readable, s, a, rest);
      acts := [a] + rest;
    }
  }

  /** Every call returns under every schedule exactly when no page after the first rows is empty. */
  lemma HangsOnlyOnLaterEmptyPages(server: Server, readable: Reader)
    ensures EveryCallReturns(server, readable) <==> NoLaterEmpty(server)
  {
    if NoLaterEmpty(server) {
      forall n: nat, s | Reachable(server, readable, s) && (s.pc == Executing ==> ExecuteEnds(server, n))
        ensures Returns(server, readable, n, s)
      {
        FedCallsReturn(server, readable, n, s);
      }
    } else {
      var k: nat :| Linked(server, k) && LaterEmpty(server, k);
      var j := FirstLaterEmpty(server, k);
      var s := LaterEmptyHangs(server, readable, j);
      ReachableKeeps(server, readable, s);
      var acts := RunOut(server, readable, s);
      HungForEver(server, readable, s, acts);
      assert !Returns(server, readable, 0, s);
    }
  }
}
