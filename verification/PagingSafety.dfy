/**
  What every interleaving of the paging protocol keeps, for every server.
*/
module PagingSafety {
  import opened OdbcTypes
  import opened ResultPages
  import opened PagingProtocol

  predicate AllQuiet(threads: seq<ThreadPc>) {
    threads == [] || threads == [Leaving] || threads == [Exited]
  }

  /** The next page is on its way, in exactly one place. */
  predicate InFlight(server: Server, s: State)
    requires s.taken > 0
  {
    && Continues(server, s.taken - 1)
    && s.request == TokenAt(server, s.taken)
    && (|| (s.queue == [OutcomeAt(server, s.taken)] && AllQuiet(s.threads) && |s.sent| == s.taken + 1)
        || (s.queue == [] && s.threads == [Querying] && |s.sent| == s.taken)
        || (s.queue == [] && s.threads == [Arriving(OutcomeAt(server, s.taken))] && |s.sent| == s.taken + 1))
  }

  /** Nothing is on its way and no thread will push. */
  predicate AtRest(s: State) {
    s.queue == [] && AllQuiet(s.threads) && |s.sent| == s.taken
  }

  /** The cursor is on the page taken last. */
  predicate OnPage(server: Server, s: State) {
    && s.cursor.Some? && s.taken > 0
    && var o := OutcomeAt(server, s.taken - 1);
       o.Page? && o.rows != [] && o.rows == s.cursor.value.rows
  }

  /** An empty page was taken after a page with rows: the cursor is still past the end of the old page. */
  predicate Starved(server: Server, s: State) {
    && s.cursor.Some? && s.taken > 0 && LaterEmpty(server, s.taken - 1)
    && s.hasAsyncFetch && s.cursor.value.curPos > |s.cursor.value.rows|
  }

  /** A page that has rows is not an empty one. */
  lemma OnPageIsFed(server: Server, s: State)
    requires OnPage(server, s)
    ensures !Starved(server, s)
  {
  }

  // Control: who holds what, at each point of the main thread

  predicate WhileExecuting(server: Server, s: State) {
    && s.cursor.None? && !s.hasAsyncFetch && !s.isClosing && s.threads == [] && s.queue == []
    && (s.taken > 0 ==> Continues(server, s.taken - 1)) && RowsBefore(server, s.taken) == []
    && s.request == TokenAt(server, s.taken) && |s.sent| == s.taken && s.answers == []
  }

  predicate WhileJoining(server: Server, s: State, token: Token) {
    && OnPage(server, s) && s.hasAsyncFetch && !s.isClosing && s.cursor.value.curPos == 1
    && Continues(server, s.taken - 1) && token == TokenAt(server, s.taken) && AtRest(s)
  }

  predicate WhileWaiting(server: Server, s: State, asleep: bool) {
    && !s.isClosing && s.hasAsyncFetch && s.cursor.Some?
    && s.cursor.value.curPos > |s.cursor.value.rows|
    && (asleep ==> s.queue == [])
    && (|| (OnPage(server, s) && InFlight(server, s))
        || (Starved(server, s) && AtRest(s)))
  }

  predicate WithCursor(server: Server, s: State) {
    || (OnPage(server, s) && s.hasAsyncFetch && InFlight(server, s)
        && s.cursor.value.curPos <= |s.cursor.value.rows|)
    || (OnPage(server, s) && !s.hasAsyncFetch && AtRest(s) && !Continues(server, s.taken - 1))
    || (Starved(server, s) && AtRest(s))
  }

  predicate WithoutCursor(server: Server, s: State)
    requires s.taken > 0
  {
    && AllQuiet(s.threads) && |s.queue| <= 1 && s.taken <= |s.sent| <= s.taken + 1
    && (|s.sent| > s.taken ==> Continues(server, s.taken - 1))
    && (!s.isClosing ==>
          && !Continues(server, s.taken - 1) && AtRest(s) && !s.hasAsyncFetch
          && (OutcomeAt(server, s.taken - 1).Failure? || RowsBefore(server, s.taken) == []))
  }

  predicate WhileIdle(server: Server, s: State) {
    && s.taken > 0
    && (s.isClosing ==> s.cursor.None?)
    && if s.cursor.None? then WithoutCursor(server, s) else WithCursor(server, s)
  }

  predicate WhileClosing(server: Server, s: State) {
    && s.taken > 0
    && s.isClosing
    && if s.cursor.None? then WithoutCursor(server, s) else WithCursor(server, s)
  }

  /** Requests went out in token order. */
  predicate InTokenOrder(server: Server, sent: seq<Token>) {
    forall i | 0 <= i < |sent| :: sent[i] == TokenAt(server, i)
  }

  ghost predicate Control(server: Server, s: State) {
    && InTokenOrder(server, s.sent)
    && (s.taken > 0 ==> Linked(server, s.taken - 1))
    && match s.pc
       case Fresh => s == INIT
       case Executing => WhileExecuting(server, s)
       case Joining(token) => WhileJoining(server, s, token)
       case Waiting(asleep) => WhileWaiting(server, s, asleep)
       case Idle => WhileIdle(server, s)
       case Closing => WhileClosing(server, s)
  }

  lemma InitControl(server: Server)
    ensures Control(server, INIT)
  {
  }

  lemma ControlSleep(server: Server, readable: Reader, s: State, a: Action)
    requires Control(server, s) && Enabled(s, a) && (a.FallAsleep? || a.WakeSpuriously?)
    ensures Control(server, Apply(server, readable, s, a))
  {
  }

  lemma ControlCallClose(server: Server, readable: Reader, s: State)
    requires Control(server, s) && Enabled(s, CallClose)
    ensures Control(server, Apply(server, readable, s, CallClose))
  {
  }

  lemma ControlClose(server: Server, readable: Reader, s: State, a: Action)
    requires Control(server, s) && Enabled(s, a)
    requires a.CloseJoin? || a.CloseDone?
    ensures Control(server, Apply(server, readable, s, a))
  {
  }

  lemma FirstPageMore(server: Server, s: State, rows: seq<Row>, next: Token)
    requires WhileExecuting(server, s) && server(s.request) == Page(rows, next) && rows != [] && next != NO_TOKEN
    ensures var s' := ApplyQueryFirst(server, s); s'.pc == Idle && WhileIdle(server, s')
  {
    var s' := ApplyQueryFirst(server, s);
    assert OutcomeAt(server, s.taken) == Page(rows, next);
    assert OnPage(server, s') && InFlight(server, s');
  }

  lemma FirstPageLast(server: Server, s: State, rows: seq<Row>)
    requires WhileExecuting(server, s) && server(s.request) == Page(rows, NO_TOKEN) && rows != []
    ensures var s' := ApplyQueryFirst(server, s); s'.pc == Idle && WhileIdle(server, s')
  {
    assert OnPage(server, ApplyQueryFirst(server, s));
  }

  lemma FirstPage(server: Server, s: State)
    requires WhileExecuting(server, s) && RowsOf(OutcomeAt(server, s.taken)) != []
    ensures var s' := ApplyQueryFirst(server, s); s'.pc == Idle && WhileIdle(server, s')
  {
    var o := OutcomeAt(server, s.taken);
    if o.next == NO_TOKEN {
      FirstPageLast(server, s, o.rows);
    } else {
      FirstPageMore(server, s, o.rows, o.next);
    }
  }

  lemma NoFirstPage(server: Server, s: State)
    requires s.pc == Executing && WhileExecuting(server, s) && RowsOf(OutcomeAt(server, s.taken)) == []
    ensures var s' := ApplyQueryFirst(server, s);
      if s'.pc == Executing then WhileExecuting(server, s') else s'.pc == Idle && WhileIdle(server, s')
  {
  }

  lemma SentNext(server: Server, sent: seq<Token>, token: Token)
    requires InTokenOrder(server, sent) && token == TokenAt(server, |sent|)
    ensures InTokenOrder(server, sent + [token])
  {
    forall i | 0 <= i <= |sent| ensures (sent + [token])[i] == TokenAt(server, i) {
      if i < |sent| {
        assert (sent + [token])[i] == sent[i];
      }
    }
  }

  lemma LinkedNext(server: Server, k: nat)
    requires k > 0 ==> Linked(server, k - 1) && Continues(server, k - 1)
    ensures Linked(server, k)
  {
  }

  lemma QueryFirstSends(server: Server, s: State)
    ensures
      var s' := ApplyQueryFirst(server, s);
      s'.sent == s.sent + [s.request] && s'.taken == s.taken + 1 && (s'.pc == Idle || s'.pc == s.pc)
  {
  }

  lemma ExecutingControl(server: Server, s: State)
    requires InTokenOrder(server, s.sent) && (s.taken > 0 ==> Linked(server, s.taken - 1))
    requires if s.pc == Executing then WhileExecuting(server, s) else s.pc == Idle && WhileIdle(server, s)
    ensures Control(server, s)
  {
  }

  lemma AfterQueryFirst(server: Server, s: State)
    requires s.pc == Executing && WhileExecuting(server, s)
    ensures
      var s' := ApplyQueryFirst(server, s);
      if s'.pc == Executing then WhileExecuting(server, s') else s'.pc == Idle && WhileIdle(server, s')
  {
    if RowsOf(OutcomeAt(server, s.taken)) == [] {
      NoFirstPage(server, s);
    } else {
      FirstPage(server, s);
    }
  }

  lemma ControlQueryFirst(server: Server, readable: Reader, s: State)
    requires Control(server, s) && Enabled(s, QueryFirst)
    ensures Control(server, Apply(server, readable, s, QueryFirst))
  {
    var s' := ApplyQueryFirst(server, s);
    assert InTokenOrder(server, s'.sent) && Linked(server, s'.taken - 1) by {
      QueryFirstSends(server, s);
      SentNext(server, s.sent, s.request);
      LinkedNext(server, s.taken);
    }
    AfterQueryFirst(server, s);
    ExecutingControl(server, s');
  }

  lemma ControlCallFetch(server: Server, readable: Reader, s: State)
    requires Control(server, s) && Enabled(s, CallFetch)
    ensures Control(server, Apply(server, readable, s, CallFetch))
  {
  }

  /** When an outcome can be taken, it is the next one of the chain. */
  predicate Takes(server: Server, s: State) {
    && OnPage(server, s) && !Starved(server, s) && s.pc == Waiting(false) && s.hasAsyncFetch && !s.isClosing
    && s.cursor.value.curPos > |s.cursor.value.rows|
    && s.queue == [OutcomeAt(server, s.taken)] && AllQuiet(s.threads) && |s.sent| == s.taken + 1
    && Continues(server, s.taken - 1)
  }

  lemma TakeFacts(server: Server, s: State)
    requires Control(server, s) && Enabled(s, Take)
    ensures Takes(server, s) && Linked(server, s.taken)
  {
  }

  lemma TakenControl(server: Server, readable: Reader, s: State)
    requires Takes(server, s)
    ensures var s' := ApplyTake(readable, s);
      match s'.pc
      case Joining(token) => WhileJoining(server, s', token)
      case _ => s'.pc == Idle && WhileIdle(server, s')
  {
  }

  lemma ControlTake(server: Server, readable: Reader, s: State)
    requires Control(server, s) && Enabled(s, Take)
    ensures Control(server, Apply(server, readable, s, Take))
  {
    TakeFacts(server, s);
    TakenControl(server, readable, s);
  }

  lemma ControlJoin(server: Server, readable: Reader, s: State)
    requires Control(server, s) && Enabled(s, Join)
    ensures Control(server, Apply(server, readable, s, Join))
  {
  }

  lemma ControlThreadQuery(server: Server, readable: Reader, s: State, a: Action)
    requires Control(server, s) && Enabled(s, a) && a.ThreadQuery?
    ensures Control(server, Apply(server, readable, s, a))
  {
  }

  lemma ControlThreadExit(server: Server, readable: Reader, s: State, a: Action)
    requires Control(server, s) && Enabled(s, a) && a.ThreadExit?
    ensures Control(server, Apply(server, readable, s, a))
  {
  }

  /** Only one thread can push, into an empty queue, and its outcome is the next one of the chain. */
  predicate Pushes(server: Server, s: State) {
    && s.taken > 0 && s.queue == [] && s.threads == [Arriving(OutcomeAt(server, s.taken))]
    && OnPage(server, s) && s.hasAsyncFetch && InFlight(server, s)
    && match s.pc
       case Waiting(_) => s.cursor.value.curPos > |s.cursor.value.rows| && !s.isClosing
       case Idle => s.cursor.value.curPos <= |s.cursor.value.rows| && !s.isClosing
       case Closing => s.cursor.value.curPos <= |s.cursor.value.rows| && s.isClosing
       case _ => false
  }

  lemma PushFacts(server: Server, s: State, a: Action)
    requires Control(server, s) && Enabled(s, a) && a.ThreadPush?
    ensures Pushes(server, s) && a.i == 0 && MayWake(s, a.wakes)
  {
    match s.pc
    case Fresh =>
    case Executing =>
    case Joining(token) =>
    case Waiting(asleep) =>
    case Idle =>
    case Closing =>
  }

  /** What a push changes. */
  lemma Pushed(server: Server, s: State, w: Waiter)
    requires Pushes(server, s) && MayWake(s, w)
    ensures
      var s' := ApplyPush(s, 0, w);
      s' == s.(threads := [Leaving], queue := [OutcomeAt(server, s.taken)],
               pc := if s.pc == Waiting(true) then Waiting(false) else s.pc)
  {
    assert s.threads[0 := Leaving] == [Leaving];
    assert s.threads[0] == Arriving(OutcomeAt(server, s.taken));
  }

  lemma PushedControl(server: Server, s: State, s': State)
    requires Control(server, s) && Pushes(server, s)
    requires s' == s.(threads := [Leaving], queue := [OutcomeAt(server, s.taken)],
                      pc := if s.pc == Waiting(true) then Waiting(false) else s.pc)
    ensures Control(server, s')
  {
    assert InFlight(server, s');
  }

  lemma ControlPush(server: Server, readable: Reader, s: State, a: Action)
    requires Control(server, s) && Enabled(s, a) && a.ThreadPush?
    ensures Control(server, Apply(server, readable, s, a))
  {
    PushFacts(server, s, a);
    Pushed(server, s, a.wakes);
    PushedControl(server, s, ApplyPush(s, 0, a.wakes));
  }

  /** One page at most is queued, one thread at most is unjoined, and it finds the queue empty. */
  lemma ControlBounds(server: Server, s: State)
    requires Control(server, s)
    ensures |s.queue| <= 1 && |s.threads| <= 1
    ensures s.threads != [] ==> !s.threads[0].Asleep? && (s.threads[0].Arriving? ==> s.queue == [])
  {
    match s.pc
    case Fresh =>
    case Executing =>
    case Joining(token) =>
    case Waiting(asleep) =>
    case Idle =>
    case Closing =>
  }

  lemma ThreadNeverSleeps(server: Server, s: State, a: Action)
    requires Control(server, s) && (a.ThreadSleep? || a.ThreadWakeSpuriously?)
    ensures !Enabled(s, a)
  {
    ControlBounds(server, s);
  }

  lemma ControlStep(server: Server, readable: Reader, s: State, a: Action)
    requires Control(server, s) && Enabled(s, a)
    ensures Control(server, Apply(server, readable, s, a))
  {
    match a
    case Execute =>
    case FallAsleep => ControlSleep(server, readable, s, a);
    case WakeSpuriously => ControlSleep(server, readable, s, a);
    case CallClose => ControlCallClose(server, readable, s);
    case QueryFirst => ControlQueryFirst(server, readable, s);
    case CallFetch => ControlCallFetch(server, readable, s);
    case Take => ControlTake(server, readable, s);
    case Join => ControlJoin(server, readable, s);
    case ThreadQuery(_) => ControlThreadQuery(server, readable, s, a);
    case ThreadSleep(_) => ThreadNeverSleeps(server, s, a);
    case ThreadWakeSpuriously(_) => ThreadNeverSleeps(server, s, a);
    case ThreadPush(_, _) => ControlPush(server, readable, s, a);
    case ThreadExit(_) => ControlThreadExit(server, readable, s, a);
    case CloseJoin => ControlClose(server, readable, s, a);
    case CloseDone => ControlClose(server, readable, s, a);
  }

  // Answers: every row once, in order, then "no more data"

  /** Execute failed before it saw a row. */
  predicate ExecuteFailed(server: Server, s: State) {
    s.taken > 0 && OutcomeAt(server, s.taken - 1).Failure? && RowsBefore(server, s.taken) == []
  }

  /** How many answers the calls so far must have given. */
  function Owed(server: Server, readable: Reader, s: State): nat {
    if s.cursor.None? || s.taken == 0 then |Script(server, readable, s.taken)|
    else if s.pc.Joining? then |RowsBefore(server, s.taken - 1)|
    else if Starved(server, s) then |RowsBefore(server, s.taken)|
    else |RowsBefore(server, s.taken - 1)| + Min(s.cursor.value.curPos, |s.cursor.value.rows|)
  }

  /** States in which "no more data" may have been told. */
  predicate Over(server: Server, s: State) {
    || s.cursor.None?
    || Starved(server, s)
    || (!s.hasAsyncFetch && s.cursor.value.curPos > |s.cursor.value.rows|)
  }

  predicate Told(server: Server, readable: Reader, s: State) {
    var script := Script(server, readable, s.taken);
    var told := Real(s.answers);
    && told <= |script|
    && s.answers == Pad(script[..told], |s.answers|)
    && (s.cursor.Some? || !s.isClosing || ExecuteFailed(server, s) ==> told == Owed(server, readable, s))
    && (|s.answers| > told ==> Over(server, s))
  }

  /** Row i of the page taken last is told by answer |RowsBefore| + i. */
  lemma RowInScript(server: Server, readable: Reader, s: State, i: nat)
    requires OnPage(server, s) && i < |s.cursor.value.rows|
    ensures var k := |RowsBefore(server, s.taken - 1)| + i;
      k < |Script(server, readable, s.taken)|
      && Script(server, readable, s.taken)[k] == Give(readable, s.cursor.value.rows[i])
  {
  }

  lemma PadSnoc(script: seq<Answer>, r: nat)
    requires r < |script|
    ensures Pad(script[..r], r) + [script[r]] == Pad(script[..r + 1], r + 1)
  {
  }

  /** On a row of the page taken last, with as many answers as rows were read. */
  lemma ToldOnRow(server: Server, readable: Reader, s: State, n: nat)
    requires OnPage(server, s) && s.pc == Idle && 1 <= s.cursor.value.curPos <= |s.cursor.value.rows|
    requires n == |RowsBefore(server, s.taken - 1)| + s.cursor.value.curPos
    requires n <= |Script(server, readable, s.taken)| && Real(s.answers) == n
    requires s.answers == Pad(Script(server, readable, s.taken)[..n], n)
    ensures Told(server, readable, s)
  {
    OnPageIsFed(server, s);
  }

  lemma TellRow(server: Server, readable: Reader, s: State, s': State)
    requires OnPage(server, s') && s'.pc == Idle
    requires var c := s'.cursor.value; 1 <= c.curPos <= |c.rows|
    requires var r := |RowsBefore(server, s'.taken - 1)| + s'.cursor.value.curPos - 1;
      && r <= |Script(server, readable, s'.taken)|
      && s.answers == Pad(Script(server, readable, s'.taken)[..r], r)
      && s'.answers == s.answers + [ReadRow(readable, s'.cursor)]
    ensures Told(server, readable, s')
  {
    var i := s'.cursor.value.curPos - 1;
    var r := |s.answers|;
    RowInScript(server, readable, s', i);
    PadSnoc(Script(server, readable, s'.taken), r);
    RealSnoc(s.answers, Give(readable, s'.cursor.value.rows[i]));
    ToldOnRow(server, readable, s', r + 1);
  }

  lemma TellNoMore(server: Server, readable: Reader, s: State, s': State)
    requires Told(server, readable, s)
    requires s'.taken == s.taken && s'.isClosing == s.isClosing && s'.answers == s.answers + [NoMore]
    requires s'.cursor.None? == s.cursor.None? && Over(server, s')
    requires Owed(server, readable, s') == Owed(server, readable, s)
    ensures Told(server, readable, s')
  {
    RealSnoc(s.answers, NoMore);
    PadEnds(Script(server, readable, s.taken)[..Real(s.answers)], |s.answers|);
  }

  /** What Control says about a state between two calls. */
  predicate Between(server: Server, s: State) {
    s.taken > 0 && (s.cursor.None? || OnPage(server, s) || Starved(server, s))
  }

  lemma ToldFetchRow(server: Server, readable: Reader, s: State)
    requires OnPage(server, s) && s.pc == Idle && Told(server, readable, s)
    requires s.cursor.value.curPos < |s.cursor.value.rows|
    ensures Told(server, readable, ApplyCallFetch(readable, s))
  {
    assert !Starved(server, s) && !Over(server, s);
    TellRow(server, readable, s, ApplyCallFetch(readable, s));
  }

  lemma ToldFetchPastEnd(server: Server, readable: Reader, s: State)
    requires Between(server, s) && s.cursor.Some? && s.pc == Idle && Told(server, readable, s)
    requires s.cursor.value.curPos >= |s.cursor.value.rows|
    ensures Told(server, readable, ApplyCallFetch(readable, s))
  {
    var s' := ApplyCallFetch(readable, s);
    assert Starved(server, s) ==> Starved(server, s');
    assert OnPage(server, s) ==> !Starved(server, s) && !Starved(server, s');
    assert Owed(server, readable, s') == Owed(server, readable, s);
    if !s.hasAsyncFetch {
      TellNoMore(server, readable, s, s');
    }
  }

  lemma ToldCallFetch(server: Server, readable: Reader, s: State)
    requires Between(server, s) && s.pc == Idle && Told(server, readable, s)
    ensures Told(server, readable, ApplyCallFetch(readable, s))
  {
    if s.cursor.None? {
      TellNoMore(server, readable, s, ApplyCallFetch(readable, s));
    } else if s.cursor.value.curPos < |s.cursor.value.rows| {
      ToldFetchRow(server, readable, s);
    } else {
      ToldFetchPastEnd(server, readable, s);
    }
  }

  lemma ToldTakeFailure(server: Server, readable: Reader, s: State, s': State)
    requires Linked(server, s.taken) && OutcomeAt(server, s.taken) == Failure
    requires RowsBefore(server, s.taken) != [] && s.answers == Gives(readable, RowsBefore(server, s.taken))
    requires s'.taken == s.taken + 1 && s'.cursor.None? && s'.answers == s.answers + [Failed]
    ensures Told(server, readable, s')
  {
    RealSnoc(s.answers, Failed);
    assert s'.answers == Script(server, readable, s'.taken);
  }

  lemma ToldTakeEmpty(server: Server, readable: Reader, s: State, s': State)
    requires Starved(server, s') && s'.taken == s.taken + 1 && s'.pc == Idle
    requires Real(s.answers) == |s.answers| && s.answers == Gives(readable, RowsBefore(server, s.taken))
    requires s'.answers == s.answers + [NoMore]
    ensures Told(server, readable, s')
  {
    RealSnoc(s.answers, NoMore);
    assert RowsBefore(server, s'.taken) == RowsBefore(server, s.taken);
  }

  lemma ToldTakePage(server: Server, readable: Reader, s: State, s': State)
    requires Linked(server, s.taken) && OnPage(server, s') && !Starved(server, s') && s'.cursor.value.curPos == 1
    requires s'.taken == s.taken + 1
    requires Real(s.answers) == |s.answers| && s.answers == Script(server, readable, s.taken)
    requires |s.answers| == |RowsBefore(server, s.taken)|
    requires if s'.pc.Joining? then s'.answers == s.answers
             else s'.pc == Idle && s'.answers == s.answers + [ReadRow(readable, s'.cursor)]
    ensures Told(server, readable, s')
  {
    ScriptGrows(server, readable, s.taken, s'.taken);
    if s'.pc == Idle {
      TellRow(server, readable, s, s');
    }
  }

  lemma ToldTake(server: Server, readable: Reader, s: State)
    requires Takes(server, s) && Linked(server, s.taken) && Told(server, readable, s)
    ensures Told(server, readable, ApplyTake(readable, s))
  {
    var s' := ApplyTake(readable, s);
    assert s.answers == Script(server, readable, s.taken) == Gives(readable, RowsBefore(server, s.taken));
    match s.queue[0]
    case Failure => ToldTakeFailure(server, readable, s, s');
    case Page(rows, next) =>
      if rows == [] {
        assert Starved(server, s');
        ToldTakeEmpty(server, readable, s, s');
      } else {
        assert OnPage(server, s');
        ToldTakePage(server, readable, s, s');
      }
  }

  lemma ToldJoin(server: Server, readable: Reader, s: State)
    requires OnPage(server, s) && s.pc.Joining? && s.cursor.value.curPos == 1 && s.hasAsyncFetch
    requires Told(server, readable, s)
    ensures Told(server, readable, ApplyJoin(readable, s))
  {
    TellRow(server, readable, s, ApplyJoin(readable, s));
  }

  /** Actions that neither take an outcome nor tell an answer. */
  lemma ToldElse(server: Server, readable: Reader, s: State, s': State)
    requires Told(server, readable, s)
    requires s'.taken == s.taken && s'.answers == s.answers && s'.hasAsyncFetch == s.hasAsyncFetch
    requires s'.pc.Joining? == s.pc.Joining? && (s.isClosing ==> s'.isClosing)
    requires s'.cursor == s.cursor || (s'.cursor.None? && s'.isClosing && !ExecuteFailed(server, s'))
             || (s.cursor.None? && s'.cursor.None?)
    ensures Told(server, readable, s')
  {
  }

  lemma ToldQueryFirst(server: Server, readable: Reader, s: State)
    requires WhileExecuting(server, s)
    ensures Told(server, readable, ApplyQueryFirst(server, s))
  {
    var s' := ApplyQueryFirst(server, s);
    assert s'.answers == [] && server(s.request) == OutcomeAt(server, s.taken);
    if s'.cursor.None? {
      assert Script(server, readable, s'.taken) == [];
    }
  }

  lemma MainFacts(server: Server, s: State, a: Action)
    requires Control(server, s) && Enabled(s, a)
    ensures a.CallFetch? ==> Between(server, s)
    ensures a.Join? ==> OnPage(server, s) && s.cursor.value.curPos == 1 && s.hasAsyncFetch
    ensures a.QueryFirst? ==> WhileExecuting(server, s)
    ensures a.CloseDone? ==> s.isClosing
    ensures a.CloseDone? && s.cursor.Some? ==> !ExecuteFailed(server, s)
  {
  }

  /** Actions of which no answer and no outcome taken depends. */
  predicate Quiet(a: Action) {
    !a.QueryFirst? && !a.CallFetch? && !a.Take? && !a.Join? && !a.CloseDone?
  }

  lemma QuietChangesNothingTold(server: Server, readable: Reader, s: State, a: Action)
    requires Enabled(s, a) && Quiet(a)
    ensures
      var s' := Apply(server, readable, s, a);
      && s'.taken == s.taken && s'.answers == s.answers && s'.hasAsyncFetch == s.hasAsyncFetch
      && s'.cursor == s.cursor && s'.pc.Joining? == s.pc.Joining? && (s.isClosing ==> s'.isClosing)
  {
  }

  lemma ToldQuiet(server: Server, readable: Reader, s: State, a: Action)
    requires Told(server, readable, s) && Enabled(s, a) && Quiet(a)
    ensures Told(server, readable, Apply(server, readable, s, a))
  {
    QuietChangesNothingTold(server, readable, s, a);
    ToldElse(server, readable, s, Apply(server, readable, s, a));
  }

  /** Dropping the cursor. */
  lemma ToldDropped(server: Server, readable: Reader, s: State)
    requires Told(server, readable, s) && s.pc == Closing && s.isClosing
    requires s.cursor.Some? ==> !ExecuteFailed(server, s)
    ensures Told(server, readable, s.(pc := Idle, cursor := None))
  {
    ToldElse(server, readable, s, s.(pc := Idle, cursor := None));
  }

  lemma ToldCloseDone(server: Server, readable: Reader, s: State)
    requires Control(server, s) && Told(server, readable, s) && Enabled(s, CloseDone)
    ensures Told(server, readable, Apply(server, readable, s, CloseDone))
  {
    MainFacts(server, s, CloseDone);
    ToldDropped(server, readable, s);
  }

  lemma ToldMain(server: Server, readable: Reader, s: State, a: Action)
    requires Control(server, s) && Told(server, readable, s) && Enabled(s, a)
    requires a.CallFetch? || a.Take? || a.Join?
    ensures Told(server, readable, Apply(server, readable, s, a))
  {
    if a.Take? {
      TakeFacts(server, s);
      ToldTake(server, readable, s);
    } else {
      MainFacts(server, s, a);
      if a.Join? {
        ToldJoin(server, readable, s);
      } else {
        ToldCallFetch(server, readable, s);
      }
    }
  }

  lemma ToldStep(server: Server, readable: Reader, s: State, a: Action)
    requires Control(server, s) && Told(server, readable, s) && Enabled(s, a)
    ensures Told(server, readable, Apply(server, readable, s, a))
  {
    if Quiet(a) {
      ToldQuiet(server, readable, s, a);
    } else if a.QueryFirst? {
      MainFacts(server, s, a);
      ToldQueryFirst(server, readable, s);
    } else if a.CloseDone? {
      ToldCloseDone(server, readable, s);
    } else {
      ToldMain(server, readable, s, a);
    }
  }

  // Whole runs

  lemma {:induction false} RunKeeps(server: Server, readable: Reader, s: State, acts: seq<Action>)
    requires Control(server, s) && Told(server, readable, s) && Valid(server, readable, s, acts)
    ensures var s' := After(server, readable, s, acts);
      Control(server, s') && Told(server, readable, s')
    decreases |acts|
  {
    if acts != [] {
      ControlStep(server, readable, s, acts[0]);
      ToldStep(server, readable, s, acts[0]);
      RunKeeps(server, readable, Apply(server, readable, s, acts[0]), acts[1..]);
    }
  }

  ghost predicate Reachable(server: Server, readable: Reader, s: State) {
    exists acts :: Valid(server, readable, INIT, acts) && After(server, readable, INIT, acts) == s
  }

  lemma ReachableKeeps(server: Server, readable: Reader, s: State)
    requires Reachable(server, readable, s)
    ensures Control(server, s) && Told(server, readable, s)
  {
    var acts :| Valid(server, readable, INIT, acts) && After(server, readable, INIT, acts) == s;
    InitControl(server);
    RunKeeps(server, readable, INIT, acts);
  }

  lemma ReachableBounds(server: Server, readable: Reader, s: State)
    requires Reachable(server, readable, s)
    ensures |s.queue| <= 1 && |s.threads| <= 1
    ensures s.threads != [] ==> !s.threads[0].Asleep? && (s.threads[0].Arriving? ==> s.queue == [])
  {
    ReachableKeeps(server, readable, s);
    ControlBounds(server, s);
  }

  lemma ReachOn(server: Server, readable: Reader, s: State, acts: seq<Action>)
    requires Reachable(server, readable, s) && Valid(server, readable, s, acts)
    ensures Reachable(server, readable, After(server, readable, s, acts))
  {
    var head :| Valid(server, readable, INIT, head) && After(server, readable, INIT, head) == s;
    RunsCompose(server, readable, INIT, head, acts);
  }

  lemma StepOn(server: Server, readable: Reader, s: State, a: Action)
    requires Reachable(server, readable, s) && Enabled(s, a)
    ensures Reachable(server, readable, Apply(server, readable, s, a))
  {
    assert After(server, readable, s, [a]) == Apply(server, readable, s, a);
    ReachOn(server, readable, s, [a]);
  }

  lemma StepFetch(server: Server, readable: Reader, s: State)
    requires Reachable(server, readable, s) && s.pc == Idle
    ensures Reachable(server, readable, ApplyCallFetch(readable, s))
  {
    StepOn(server, readable, s, CallFetch);
  }

  lemma StepTake(server: Server, readable: Reader, s: State)
    requires Reachable(server, readable, s) && s.pc == Waiting(false) && s.queue != []
    ensures Reachable(server, readable, ApplyTake(readable, s))
  {
    StepOn(server, readable, s, Take);
  }

  lemma StepJoin(server: Server, readable: Reader, s: State)
    requires Reachable(server, readable, s) && s.pc.Joining? && (s.threads == [] || s.threads[0] == Exited)
    ensures Reachable(server, readable, ApplyJoin(readable, s))
  {
    StepOn(server, readable, s, Join);
  }

  lemma StepQueryFirst(server: Server, readable: Reader, s: State)
    requires Reachable(server, readable, s) && s.pc == Executing
    ensures Reachable(server, readable, ApplyQueryFirst(server, s))
  {
    StepOn(server, readable, s, QueryFirst);
  }

  lemma StepExecute(server: Server, readable: Reader)
    ensures Reachable(server, readable, INIT.(pc := Executing))
  {
    assert After(server, readable, INIT, [Execute]) == INIT.(pc := Executing);
  }

  lemma StepCallClose(server: Server, readable: Reader, s: State)
    requires Reachable(server, readable, s) && s.pc == Idle
    ensures Reachable(server, readable, s.(pc := Closing, isClosing := true))
  {
    StepOn(server, readable, s, CallClose);
  }

  lemma StepCloseJoin(server: Server, readable: Reader, s: State)
    requires Reachable(server, readable, s) && s.pc == Closing && s.threads != [] && s.threads[0] == Exited
    ensures Reachable(server, readable, s.(threads := s.threads[1..]))
  {
    StepOn(server, readable, s, CloseJoin);
  }

  lemma StepCloseDone(server: Server, readable: Reader, s: State)
    requires Reachable(server, readable, s) && s.pc == Closing && s.threads == []
    ensures Reachable(server, readable, s.(pc := Idle, cursor := None))
  {
    StepOn(server, readable, s, CloseDone);
  }
}
