/**
  The asynchronous paging protocol of DataQuery, as a state machine.

  The main thread runs the caller's Execute, FetchNextRow and Close; every page after the first
  non-empty one is queried by a background thread, which hands its outcome over through a one-slot
  queue guarded by a mutex and a condition variable. One action below is one piece of code that no
  other thread can observe halfway: a critical section, or code that touches unshared state only.
  Any enabled action may come next, so a valid action sequence is an arbitrary interleaving.

  Waiting is modelled with its wake-ups: a thread that finds its predicate false falls asleep and
  stays asleep until it is notified or wakes spuriously. InternalClose sets isClosing without
  notifying, and SwitchCursor pops without notifying, exactly as in the driver.
*/
module PagingProtocol {
  import opened OdbcTypes
  import opened ResultPages

  /** Position within a page: 0 before the first Increment, then the number of the current row. */
  datatype Cursor = Cursor(rows: seq<Row>, curPos: nat)

  /** Where AsyncFetchOnePage stands. */
  datatype ThreadPc =
    | Querying
    | Arriving(outcome: Outcome)
    | Asleep(outcome: Outcome)
    | Leaving
    | Exited

  /** Where the main thread stands; Idle between two calls of the application. */
  datatype MainPc =
    | Fresh
    | Executing
    | Idle
    | Waiting(asleep: bool)
    | Joining(token: Token)
    | Closing

  /** The fields of DataQuery and its context; sent, taken and answers record history. */
  datatype State = State(
    pc: MainPc,
    request: Token,
    cursor: Option<Cursor>,
    hasAsyncFetch: bool,
    threads: seq<ThreadPc>,
    queue: seq<Outcome>,
    isClosing: bool,
    sent: seq<Token>,
    taken: nat,
    answers: seq<Answer>)

  const INIT := State(Fresh, NO_TOKEN, None, false, [], [], false, [], 0, [])

  /** The thread a notify_one call wakes. */
  datatype Waiter = Nobody | Main | Background(index: nat)

  datatype Action =
    | Execute
    | QueryFirst
    | CallFetch
    | FallAsleep
    | WakeSpuriously
    | Take
    | Join
    | CallClose
    | CloseJoin
    | CloseDone
    | ThreadQuery(i: nat)
    | ThreadSleep(i: nat)
    | ThreadWakeSpuriously(i: nat)
    | ThreadPush(i: nat, wakes: Waiter)
    | ThreadExit(i: nat)

  /** The three actions that the application chooses; all others are the driver's own. */
  predicate ByCaller(a: Action) {
    a.Execute? || a.CallFetch? || a.CallClose?
  }

  predicate Spurious(a: Action) {
    a.WakeSpuriously? || a.ThreadWakeSpuriously?
  }

  predicate MayWake(s: State, w: Waiter) {
    match w
    case Main => s.pc == Waiting(true)
    case Background(j) => j < |s.threads| && s.threads[j].Asleep?
    case Nobody => s.pc != Waiting(true) && forall t | t in s.threads :: !t.Asleep?
  }

  predicate Enabled(s: State, a: Action) {
    match a
    case Execute => s.pc == Fresh
    case QueryFirst => s.pc == Executing
    case CallFetch => s.pc == Idle
    case FallAsleep => s.pc == Waiting(false) && s.queue == []
    case WakeSpuriously => s.pc == Waiting(true)
    case Take => s.pc == Waiting(false) && s.queue != []
    case Join => s.pc.Joining? && (s.threads == [] || s.threads[0] == Exited)
    case CallClose => s.pc == Idle
    case CloseJoin => s.pc == Closing && s.threads != [] && s.threads[0] == Exited
    case CloseDone => s.pc == Closing && s.threads == []
    case ThreadQuery(i) => i < |s.threads| && s.threads[i] == Querying
    case ThreadSleep(i) => i < |s.threads| && s.threads[i].Arriving? && s.queue != [] && !s.isClosing
    case ThreadWakeSpuriously(i) => i < |s.threads| && s.threads[i].Asleep?
    case ThreadPush(i, w) =>
      && i < |s.threads| && s.threads[i].Arriving?
      && (s.queue == [] || s.isClosing)
      && (if s.queue == [] then MayWake(s, w) else w == Nobody)
    case ThreadExit(i) => i < |s.threads| && s.threads[i] == Leaving
  }

  /** The row under the cursor; reading anywhere else is not defined by the driver. */
  function ReadRow(readable: Reader, cursor: Option<Cursor>): Answer {
    if cursor.Some? && 1 <= cursor.value.curPos <= |cursor.value.rows|
    then Give(readable, cursor.value.rows[cursor.value.curPos - 1])
    else NoMore
  }

  function Tell(s: State, answer: Answer): State {
    s.(pc := Idle, answers := s.answers + [answer])
  }

  /** One round of the loop in MakeRequestExecute. */
  function ApplyQueryFirst(server: Server, s: State): State {
    var s1 := s.(sent := s.sent + [s.request], taken := s.taken + 1);
    match server(s.request)
    case Failure => s1.(pc := Idle, isClosing := true, cursor := None)
    case Page(rows, next) =>
      if rows == [] then
        if next == NO_TOKEN then s1.(pc := Idle) else s1.(request := next)
      else
        var s2 := s1.(pc := Idle, cursor := Some(Cursor(rows, 0)));
        if next == NO_TOKEN then s2
        else s2.(request := next, threads := s.threads + [Querying], hasAsyncFetch := true)
  }

  /** FetchNextRow up to its end, or up to the wait in SwitchCursor. */
  function ApplyCallFetch(readable: Reader, s: State): State {
    match s.cursor
    case None => Tell(s, NoMore)
    case Some(c) =>
      var s1 := s.(cursor := Some(c.(curPos := c.curPos + 1)));
      if c.curPos + 1 <= |c.rows| then Tell(s1, ReadRow(readable, s1.cursor))
      else if s.hasAsyncFetch then s1.(pc := Waiting(false))
      else Tell(s1, NoMore)
  }

  /** SwitchCursor from the pop to its end, or up to the join of the last thread. */
  function ApplyTake(readable: Reader, s: State): State
    requires s.queue != []
  {
    var s1 := s.(queue := s.queue[1..], taken := s.taken + 1);
    match s.queue[0]
    case Failure => Tell(s1.(cursor := None, hasAsyncFetch := false), Failed)
    case Page(rows, next) =>
      if rows == [] then Tell(s1, NoMore)
      else
        var s2 := s1.(cursor := Some(Cursor(rows, 1)));
        if next == NO_TOKEN then Tell(s2.(hasAsyncFetch := false), ReadRow(readable, s2.cursor))
        else s2.(pc := Joining(next))
  }

  /** SwitchCursor from the join to its end: write the request, start the next thread. */
  function ApplyJoin(readable: Reader, s: State): State
    requires s.pc.Joining?
  {
    var left := if s.threads == [] then [] else s.threads[1..];
    Tell(s.(request := s.pc.token, threads := left + [Querying]), ReadRow(readable, s.cursor))
  }

  /** The critical section of AsyncFetchOnePage, once its wait is over. */
  function ApplyPush(s: State, i: nat, w: Waiter): State
    requires i < |s.threads| && s.threads[i].Arriving?
    requires s.queue == [] ==> MayWake(s, w)
  {
    var s1 := s.(threads := s.threads[i := Leaving]);
    if s.queue != [] then s1
    else
      var s2 := s1.(queue := [s.threads[i].outcome]);
      match w
      case Nobody => s2
      case Main => s2.(pc := Waiting(false))
      case Background(j) => s2.(threads := s2.threads[j := Arriving(s.threads[j].outcome)])
  }

  function Apply(server: Server, readable: Reader, s: State, a: Action): State
    requires Enabled(s, a)
  {
    match a
    case Execute => s.(pc := Executing)
    case QueryFirst => ApplyQueryFirst(server, s)
    case CallFetch => ApplyCallFetch(readable, s)
    case FallAsleep => s.(pc := Waiting(true))
    case WakeSpuriously => s.(pc := Waiting(false))
    case Take => ApplyTake(readable, s)
    case Join => ApplyJoin(readable, s)
    case CallClose => s.(pc := Closing, isClosing := true)
    case CloseJoin => s.(threads := s.threads[1..])
    case CloseDone => s.(pc := Idle, cursor := None)
    case ThreadQuery(i) =>
      s.(threads := s.threads[i := Arriving(server(s.request))], sent := s.sent + [s.request])
    case ThreadSleep(i) => s.(threads := s.threads[i := Asleep(s.threads[i].outcome)])
    case ThreadWakeSpuriously(i) => s.(threads := s.threads[i := Arriving(s.threads[i].outcome)])
    case ThreadPush(i, w) => ApplyPush(s, i, w)
    case ThreadExit(i) => s.(threads := s.threads[i := Exited])
  }

  // Runs

  /** Every action of the sequence is enabled when its turn comes. */
  predicate Valid(server: Server, readable: Reader, s: State, acts: seq<Action>)
    decreases |acts|
  {
    acts == [] || (Enabled(s, acts[0]) && Valid(server, readable, Apply(server, readable, s, acts[0]), acts[1..]))
  }

  function After(server: Server, readable: Reader, s: State, acts: seq<Action>): State
    requires Valid(server, readable, s, acts)
    decreases |acts|
  {
    if acts == [] then s else After(server, readable, Apply(server, readable, s, acts[0]), acts[1..])
  }

  lemma {:induction false} RunsCompose(server: Server, readable: Reader, s: State, xs: seq<Action>, ys: seq<Action>)
    requires Valid(server, readable, s, xs)
    requires Valid(server, readable, After(server, readable, s, xs), ys)
    ensures Valid(server, readable, s, xs + ys)
    ensures After(server, readable, s, xs + ys) == After(server, readable, After(server, readable, s, xs), ys)
    decreases |xs|
  {
    if xs == [] {
      assert xs + ys == ys;
    } else {
      assert (xs + ys)[1..] == xs[1..] + ys;
      RunsCompose(server, readable, Apply(server, readable, s, xs[0]), xs[1..], ys);
    }
  }
}
