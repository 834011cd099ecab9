/** The device's side of a remote workspace: a ledger of idempotent requests, one
    active command at a time, an approval that can race cancel and close, and the
    three budgets. Every critical section of the original is one atomic step, so
    a list of steps is one interleaving of all handlers and command goroutines. */
module Workspace {
  import opened Common

  const MAX_REQUESTS: nat := 128
  const MAX_OUTPUT: nat := 0x80_0000
  const MAX_INPUT: nat := 0x10_0000

  datatype Input = Input(command: bytes, cwd: bytes, script: bytes, interp: bytes)

  datatype Phase = Approving | Running | Finished

  datatype Reason = NoError | Denied | StoppedFirst | Cancelled | ShutWorkspace | RunFailed(text: bytes)

  datatype Job = Job(input: Input, phase: Phase, done: bool, output: bytes, total: nat,
                     code: int, reason: Reason, dirAfter: bytes)

  /** The workspace's fields, then its history: the order of reservations, the
      handlers still between reserving and deciding, the dispatches, the closings
      of `finished` channels, everything each command wrote, and whether a cancel
      or close has returned. */
  datatype State = State(
    closed: bool, stopping: bool, shellClosed: bool, active: string, jobs: map<string, Job>,
    outputBytes: int, inputBytes: int, waitGroup: set<string>,
    order: seq<string>, handlers: set<string>, dispatched: seq<string>, signalled: seq<string>,
    written: map<string, bytes>, quiet: bool)

  const INITIAL := State(false, false, false, "", map[], 0, 0, {}, [], {}, [], [], map[], false)

  datatype Step =
    | Reserve(id: string, input: Input)
    | ResolveFails(id: string)
    | Decide(id: string, allowed: bool)
    | Emit(id: string, p: bytes)
    | Exit(id: string, code: int, failure: Option<bytes>, dir: bytes)
    | Depart(id: string)
    | ShellDies
    | Cancel(id: string)
    | CancelReturns
    | CloseBegins
    | CloseReturns

  datatype Reservation = BadRequestId | Duplicate | Conflict | Unavailable | Busy | LedgerFull | InputFull | Fresh

  predicate IdChar(c: char) {
    'a' <= c <= 'z' || 'A' <= c <= 'Z' || '0' <= c <= '9' || c == '-' || c == '_'
  }

  predicate ValidRequest(id: string) {
    0 < |id| <= 128 && forall c :: c in id ==> IdChar(c)
  }

  function Cost(i: Input): nat {
    |i.command| + |i.cwd| + |i.script|
  }

  predicate Open(s: State) {
    !s.closed && !s.stopping && !s.shellClosed
  }

  function Outcome(s: State, id: string, input: Input): Reservation {
    if !ValidRequest(id) then BadRequestId
    else if id in s.jobs then if s.jobs[id].input == input then Duplicate else Conflict
    else if !Open(s) then Unavailable
    else if s.active != "" then Busy
    else if |s.jobs| >= MAX_REQUESTS then LedgerFull
    else if Cost(input) > MAX_INPUT - s.inputBytes then InputFull
    else Fresh
  }

  function FinishJob(s: State, id: string, code: int, reason: Reason): State
    requires id in s.jobs
  {
    var j := s.jobs[id];
    if j.done then s
    else s.(jobs := s.jobs[id := j.(code := code, done := true, phase := Finished,
                                    reason := if reason == NoError then j.reason else reason)],
            active := if s.active == id then "" else s.active,
            signalled := s.signalled + [id])
  }

  function Room(s: State, p: bytes): nat {
    if s.outputBytes >= MAX_OUTPUT then 0
    else if |p| <= MAX_OUTPUT - s.outputBytes then |p| else MAX_OUTPUT - s.outputBytes
  }

  /** Whether the thread that would take this step is at it. */
  predicate Enabled(s: State, step: Step) {
    match step
    case Reserve(_, _) => true
    case ResolveFails(id) => id in s.handlers && id in s.jobs && s.closed && s.jobs[id].input.cwd != []
    case Decide(id, _) => id in s.handlers && id in s.jobs
    case Emit(id, _) => id in s.jobs && s.jobs[id].phase == Running && id in s.written
    case Exit(id, _, _, _) => id in s.jobs && s.jobs[id].phase == Running
    case Depart(id) => id in s.waitGroup && id in s.jobs && s.jobs[id].done
    case ShellDies => true
    case Cancel(id) => id != "" && s.active == id && id in s.jobs
    case CancelReturns => s.stopping && s.waitGroup == {}
    case CloseBegins => true
    case CloseReturns => s.closed && s.waitGroup == {}
  }

  function DoRecord(s: State, id: string, input: Input): State {
    s.(inputBytes := s.inputBytes + Cost(input),
       jobs := s.jobs[id := Job(input, Approving, false, [], 0, 0, NoError, [])],
       active := id, order := s.order + [id], handlers := s.handlers + {id},
       written := s.written[id := []])
  }

  function DoReserve(s: State, id: string, input: Input): State {
    if Outcome(s, id, input).Fresh? then DoRecord(s, id, input) else s
  }

  function WithoutHandler(s: State, id: string): State {
    s.(handlers := s.handlers - {id})
  }

  function DoDispatch(s: State, id: string): State
    requires id in s.jobs
  {
    s.(handlers := s.handlers - {id},
       jobs := s.jobs[id := s.jobs[id].(phase := Running)],
       waitGroup := s.waitGroup + {id}, dispatched := s.dispatched + [id])
  }

  function DoDecide(s: State, id: string, allowed: bool): State
    requires id in s.jobs
  {
    if allowed && Open(s) then DoDispatch(s, id)
    else FinishJob(WithoutHandler(s, id), id, -1, if Open(s) then Denied else StoppedFirst)
  }

  function DoEmit(s: State, id: string, p: bytes): State
    requires id in s.jobs && id in s.written
  {
    var j := s.jobs[id];
    s.(jobs := s.jobs[id := j.(total := j.total + |p|, output := j.output + p[..Room(s, p)])],
       outputBytes := s.outputBytes + Room(s, p),
       written := s.written[id := s.written[id] + p])
  }

  function WithDir(s: State, id: string, dir: bytes): State
    requires id in s.jobs
  {
    s.(jobs := s.jobs[id := s.jobs[id].(dirAfter := dir)])
  }

  function DoExit(s: State, id: string, code: int, failure: Option<bytes>, dir: bytes): State
    requires id in s.jobs
  {
    FinishJob(WithDir(s, id, if failure.None? then dir else []), id, code,
              if failure.None? then NoError else RunFailed(failure.value))
  }

  function DoCancel(s: State, id: string): State
    requires id in s.jobs
  {
    var t := s.(stopping := true);
    if s.jobs[id].phase == Approving then FinishJob(t, id, -1, Cancelled) else t
  }

  function Perform(s: State, step: Step): State
    requires Enabled(s, step)
  {
    match step
    case Reserve(id, input) => DoReserve(s, id, input)
    case ResolveFails(id) => FinishJob(WithoutHandler(s, id), id, -1, ShutWorkspace)
    case Decide(id, allowed) => DoDecide(s, id, allowed)
    case Emit(id, p) => DoEmit(s, id, p)
    case Exit(id, code, failure, dir) => DoExit(s, id, code, failure, dir)
    case Depart(id) => s.(waitGroup := s.waitGroup - {id})
    case ShellDies => s.(shellClosed := true)
    case Cancel(id) => DoCancel(s, id)
    case CancelReturns => s.(shellClosed := true, quiet := true)
    case CloseBegins => s.(closed := true)
    case CloseReturns => s.(shellClosed := true, quiet := true)
  }

  /** A step that is not enabled leaves the state alone, so any list is a run. */
  function Apply(s: State, step: Step): State {
    if Enabled(s, step) then Perform(s, step) else s
  }

  function Run(s: State, steps: seq<Step>): State
    decreases |steps|
  {
    if steps == [] then s else Run(Apply(s, steps[0]), steps[1..])
  }

  // ---------- invariant ----------

  function InputSize(j: Job): nat { |j.input.command| + |j.input.cwd| + |j.input.script| }

  function OutputSize(j: Job): nat { |j.output| }

  function Total(order: seq<string>, jobs: map<string, Job>, size: Job -> nat): (n: nat)
    requires forall id :: id in order ==> id in jobs
  {
    if order == [] then 0
    else Total(order[..|order| - 1], jobs, size) + size(jobs[order[|order| - 1]])
  }

  /** Replacing one entry moves a total by exactly that entry's change. */
  lemma {:induction false} TotalUpdate(order: seq<string>, jobs: map<string, Job>, size: Job -> nat, id: string, j: Job)
    requires NoDup(order) && forall x :: x in order ==> x in jobs
    ensures id !in order ==> Total(order, jobs[id := j], size) == Total(order, jobs, size)
    ensures id in order ==>
      Total(order, jobs[id := j], size) == Total(order, jobs, size) - size(jobs[id]) + size(j)
  {
    if order != [] {
      TotalUpdate(order[..|order| - 1], jobs, size, id, j);
    }
  }

  /** One job against the threads that may still act on it. */
  ghost predicate JobThreads(s: State, id: string)
    requires id in s.jobs
  {
    var j := s.jobs[id];
    && ValidRequest(id)
    && (j.done <==> j.phase == Finished)
    && (j.phase == Approving ==> id in s.handlers)
    && (j.phase == Running ==> id in s.waitGroup)
    && (id in s.handlers ==> j.phase != Running && id !in s.waitGroup && (j.done ==> s.stopping))
    && (id in s.waitGroup ==> j.phase != Approving)
    && (!j.done ==> id == s.active)
  }

  ghost predicate Threads(s: State) {
    && s.handlers <= s.jobs.Keys && s.waitGroup <= s.jobs.Keys
    && (forall id :: id in s.jobs ==> JobThreads(s, id))
    && (s.active != "" ==> s.active in s.jobs && !s.jobs[s.active].done)
    && (s.quiet ==> (s.closed || s.stopping) && s.waitGroup == {})
  }

  ghost predicate JobTraces(s: State, id: string) {
    && (id in s.dispatched ==> id in s.jobs && s.jobs[id].phase != Approving && id !in s.handlers)
    && (id in s.jobs && s.jobs[id].phase == Running ==> id in s.dispatched)
    && (id in s.signalled <==> id in s.jobs && s.jobs[id].done)
  }

  ghost predicate Traces(s: State) {
    && NoDup(s.dispatched) && NoDup(s.signalled)
    && (forall id :: JobTraces(s, id))
  }

  ghost predicate Budgets(s: State) {
    && NoDup(s.order) && |s.order| == |s.jobs| <= MAX_REQUESTS
    && (forall id :: id in s.order <==> id in s.jobs)
    && s.inputBytes == Total(s.order, s.jobs, InputSize) <= MAX_INPUT
    && s.outputBytes == Total(s.order, s.jobs, OutputSize) <= MAX_OUTPUT
  }

  ghost predicate JobOutput(s: State, id: string)
    requires id in s.jobs && id in s.written
  {
    var j := s.jobs[id];
    && j.output <= s.written[id] && j.total == |s.written[id]|
    && (|j.output| < j.total ==> s.outputBytes == MAX_OUTPUT)
    && (s.written[id] != [] ==> id in s.dispatched)
  }

  ghost predicate Outputs(s: State) {
    && s.outputBytes <= MAX_OUTPUT
    && s.written.Keys == s.jobs.Keys
    && (forall id :: id in s.jobs ==> JobOutput(s, id))
  }

  ghost predicate Inv(s: State) {
    Threads(s) && Traces(s) && Budgets(s) && Outputs(s)
  }

  lemma InvInitially()
    ensures Inv(INITIAL)
  {}

  /** t differs from s, of the ledger and its accounts, in the fate of job id alone. */
  ghost predicate OnlyFate(s: State, t: State, id: string) {
    && id in s.jobs && id in t.jobs
    && t.jobs == s.jobs[id := t.jobs[id]] && t.jobs[id].input == s.jobs[id].input
    && t.jobs[id].output == s.jobs[id].output && t.jobs[id].total == s.jobs[id].total
    && t.order == s.order && t.inputBytes == s.inputBytes && t.outputBytes == s.outputBytes
    && t.written == s.written && s.dispatched <= t.dispatched
  }

  lemma InSnoc<T>(s: seq<T>, x: T)
    ensures forall y :: y in s + [x] <==> y in s || y == x
    ensures NoDup(s) && x !in s ==> NoDup(s + [x])
  {}

  // ---------- one step at a time: the threads ----------

  /** The threads are in order but for job id, which is about to be given its verdict. */
  ghost predicate ThreadsBut(s: State, id: string) {
    && s.handlers <= s.jobs.Keys && s.waitGroup <= s.jobs.Keys
    && (forall x :: x in s.jobs && x != id ==> JobThreads(s, x))
    && (s.active != "" ==> s.active in s.jobs && !s.jobs[s.active].done)
    && (s.quiet ==> (s.closed || s.stopping) && s.waitGroup == {})
    && id in s.jobs && ValidRequest(id) && (s.jobs[id].done <==> s.jobs[id].phase == Finished)
    && (id in s.handlers ==> s.stopping && id !in s.waitGroup)
    && (!s.jobs[id].done ==> id == s.active)
  }

  lemma FinishKeepsThreads(s: State, id: string, code: int, reason: Reason)
    requires ThreadsBut(s, id)
    ensures Threads(FinishJob(s, id, code, reason))
  {
    var t := FinishJob(s, id, code, reason);
    assert JobThreads(t, id);
    forall x | x in t.jobs && x != id ensures JobThreads(t, x) {
      assert JobThreads(s, x);
    }
  }

  lemma LessHandler(s: State, id: string)
    requires Threads(s) && id in s.jobs && id in s.handlers
    ensures ThreadsBut(WithoutHandler(s, id), id)
  {
    assert JobThreads(s, id);
    forall x | x in s.jobs && x != id ensures JobThreads(WithoutHandler(s, id), x) {
      assert JobThreads(s, x);
    }
  }

  lemma DispatchThreads(s: State, id: string)
    requires Threads(s) && id in s.jobs && id in s.handlers && Open(s)
    ensures Threads(DoDispatch(s, id))
  {
    var t := DoDispatch(s, id);
    assert JobThreads(s, id);
    forall x | x in t.jobs ensures JobThreads(t, x) {
      assert JobThreads(s, x);
    }
  }

  lemma ExitThreads(s: State, id: string, dir: bytes)
    requires Threads(s) && id in s.jobs && s.jobs[id].phase == Running
    ensures ThreadsBut(WithDir(s, id, dir), id)
  {
    assert JobThreads(s, id);
    forall x | x in s.jobs && x != id ensures JobThreads(WithDir(s, id, dir), x) {
      assert JobThreads(s, x);
    }
  }

  lemma CancelThreads(s: State, id: string)
    requires Threads(s) && id in s.jobs && s.active == id
    ensures Threads(DoCancel(s, id))
  {
    var u := s.(stopping := true);
    assert JobThreads(s, id);
    forall x | x in s.jobs ensures JobThreads(u, x) {
      assert JobThreads(s, x);
    }
    if s.jobs[id].phase == Approving {
      FinishKeepsThreads(u, id, -1, Cancelled);
    }
  }

  lemma ReserveThreads(s: State, id: string, input: Input)
    requires Threads(s)
    ensures Threads(DoReserve(s, id, input))
  {
    var t := DoReserve(s, id, input);
    forall x | x in t.jobs ensures JobThreads(t, x) {
      assert x in s.jobs ==> JobThreads(s, x);
    }
  }

  /** Steps that change no job's phase and no handler. */
  lemma CalmThreads(s: State, t: State)
    requires Threads(s) && t.jobs.Keys == s.jobs.Keys && t.handlers == s.handlers && t.active == s.active
    requires forall x :: x in s.jobs ==> t.jobs[x].phase == s.jobs[x].phase && t.jobs[x].done == s.jobs[x].done
    requires t.stopping == s.stopping && (s.closed ==> t.closed)
    requires t.waitGroup <= s.waitGroup && forall x :: x in s.waitGroup && x !in t.waitGroup ==> s.jobs[x].done
    requires t.quiet ==> (t.closed || t.stopping) && t.waitGroup == {}
    ensures Threads(t)
  {
    forall x | x in t.jobs ensures JobThreads(t, x) {
      assert JobThreads(s, x);
    }
  }

  lemma ThreadsKept(s: State, step: Step)
    requires Threads(s) && Enabled(s, step)
    ensures Threads(Perform(s, step))
  {
    match step
    case Reserve(id, input) => ReserveThreads(s, id, input);
    case ResolveFails(id) =>
      LessHandler(s, id);
      FinishKeepsThreads(WithoutHandler(s, id), id, -1, ShutWorkspace);
    case Decide(id, allowed) =>
      if allowed && Open(s) {
        DispatchThreads(s, id);
      } else {
        LessHandler(s, id);
        FinishKeepsThreads(WithoutHandler(s, id), id, -1, if Open(s) then Denied else StoppedFirst);
      }
    case Exit(id, code, failure, dir) =>
      var kept := if failure.None? then dir else [];
      ExitThreads(s, id, kept);
      FinishKeepsThreads(WithDir(s, id, kept), id, code, if failure.None? then NoError else RunFailed(failure.value));
    case Cancel(id) => CancelThreads(s, id);
    case _ => CalmThreads(s, Perform(s, step));
  }

  // ---------- the traces ----------

  lemma FinishKeepsTraces(s: State, id: string, code: int, reason: Reason)
    requires Traces(s) && id in s.jobs && (s.jobs[id].done <==> s.jobs[id].phase == Finished)
    ensures Traces(FinishJob(s, id, code, reason))
  {
    var t := FinishJob(s, id, code, reason);
    assert JobTraces(s, id);
    InSnoc(s.signalled, id);
    forall x ensures JobTraces(t, x) {
      assert JobTraces(s, x);
    }
  }

  /** Steps that change no phase, dispatch nothing and close no channel. */
  lemma CalmTraces(s: State, t: State)
    requires Traces(s) && t.jobs.Keys == s.jobs.Keys && t.handlers <= s.handlers
    requires forall x :: x in s.jobs ==> t.jobs[x].phase == s.jobs[x].phase && t.jobs[x].done == s.jobs[x].done
    requires t.dispatched == s.dispatched && t.signalled == s.signalled
    ensures Traces(t)
  {
    forall x ensures JobTraces(t, x) {
      assert JobTraces(s, x);
    }
  }

  lemma DispatchTraces(s: State, id: string)
    requires Threads(s) && Traces(s) && id in s.jobs && id in s.handlers && Open(s)
    ensures Traces(DoDispatch(s, id))
  {
    var t := DoDispatch(s, id);
    assert JobThreads(s, id) && JobTraces(s, id);
    InSnoc(s.dispatched, id);
    forall x ensures JobTraces(t, x) {
      assert JobTraces(s, x);
    }
  }

  lemma ReserveTraces(s: State, id: string, input: Input)
    requires Threads(s) && Traces(s)
    ensures Traces(DoReserve(s, id, input))
  {
    var t := DoReserve(s, id, input);
    forall x ensures JobTraces(t, x) {
      assert JobTraces(s, x);
    }
  }

  lemma RefuseTraces(s: State, id: string, reason: Reason)
    requires Threads(s) && Traces(s) && id in s.jobs
    ensures Traces(FinishJob(WithoutHandler(s, id), id, -1, reason))
  {
    assert JobThreads(s, id);
    CalmTraces(s, WithoutHandler(s, id));
    FinishKeepsTraces(WithoutHandler(s, id), id, -1, reason);
  }

  lemma WithDirTraces(s: State, id: string, dir: bytes)
    requires Traces(s) && id in s.jobs
    ensures Traces(WithDir(s, id, dir))
  {
    CalmTraces(s, WithDir(s, id, dir));
  }

  lemma ExitTraces(s: State, id: string, code: int, failure: Option<bytes>, dir: bytes)
    requires Threads(s) && Traces(s) && id in s.jobs
    ensures Traces(DoExit(s, id, code, failure, dir))
  {
    assert JobThreads(s, id);
    var kept := if failure.None? then dir else [];
    WithDirTraces(s, id, kept);
    FinishKeepsTraces(WithDir(s, id, kept), id, code, if failure.None? then NoError else RunFailed(failure.value));
  }

  lemma CancelTraces(s: State, id: string)
    requires Threads(s) && Traces(s) && id in s.jobs
    ensures Traces(DoCancel(s, id))
  {
    assert JobThreads(s, id);
    CalmTraces(s, s.(stopping := true));
    FinishKeepsTraces(s.(stopping := true), id, -1, Cancelled);
  }

  lemma TracesKept(s: State, step: Step)
    requires Threads(s) && Traces(s) && Enabled(s, step)
    ensures Traces(Perform(s, step))
  {
    match step
    case Reserve(id, input) => ReserveTraces(s, id, input);
    case ResolveFails(id) => RefuseTraces(s, id, ShutWorkspace);
    case Decide(id, allowed) =>
      if allowed && Open(s) {
        DispatchTraces(s, id);
      } else {
        RefuseTraces(s, id, if Open(s) then Denied else StoppedFirst);
      }
    case Exit(id, code, failure, dir) => ExitTraces(s, id, code, failure, dir);
    case Cancel(id) => CancelTraces(s, id);
    case _ => CalmTraces(s, Perform(s, step));
  }

  // ---------- the budgets and the outputs ----------

  /** A new entry adds its own size to a total. */
  lemma TotalGrows(order: seq<string>, jobs: map<string, Job>, size: Job -> nat, id: string, j: Job)
    requires NoDup(order) && (forall x :: x in order ==> x in jobs) && id !in order
    ensures forall x :: x in order + [id] ==> x in jobs[id := j]
    ensures Total(order + [id], jobs[id := j], size) == Total(order, jobs, size) + size(j)
  {
    TotalUpdate(order, jobs, size, id, j);
    assert (order + [id])[..|order|] == order;
  }

  lemma ReserveBudgets(s: State, id: string, input: Input)
    requires Budgets(s) && Outcome(s, id, input).Fresh?
    ensures Budgets(DoReserve(s, id, input))
  {
    RecordBudgets(s, id, input);
  }

  lemma RecordBudgets(s: State, id: string, input: Input)
    requires Budgets(s) && id !in s.jobs && |s.jobs| < MAX_REQUESTS && Cost(input) <= MAX_INPUT - s.inputBytes
    ensures Budgets(DoRecord(s, id, input))
  {
    var j := Job(input, Approving, false, [], 0, 0, NoError, []);
    InSnoc(s.order, id);
    RecordTotals(s, id, j);
    NewKey(s.jobs, id, j);
  }

  lemma RecordTotals(s: State, id: string, j: Job)
    requires NoDup(s.order) && (forall x :: x in s.order <==> x in s.jobs) && id !in s.jobs
    ensures forall x :: x in s.order + [id] ==> x in s.jobs[id := j]
    ensures Total(s.order + [id], s.jobs[id := j], InputSize) == Total(s.order, s.jobs, InputSize) + Cost(j.input)
    ensures Total(s.order + [id], s.jobs[id := j], OutputSize) == Total(s.order, s.jobs, OutputSize) + |j.output|
  {
    TotalGrows(s.order, s.jobs, InputSize, id, j);
    TotalGrows(s.order, s.jobs, OutputSize, id, j);
  }

  lemma NewKey(jobs: map<string, Job>, id: string, j: Job)
    requires id !in jobs
    ensures |jobs[id := j]| == |jobs| + 1
  {
    assert jobs[id := j].Keys == jobs.Keys + {id};
    assert |jobs| == |jobs.Keys| && |jobs[id := j]| == |jobs[id := j].Keys|;
  }

  /** A step that only replaces one job keeps the totals when the counters follow it. */
  lemma ReplaceKeepsBudgets(s: State, t: State, id: string)
    requires Budgets(s) && id in s.jobs && id in t.jobs
    requires t.order == s.order && t.jobs == s.jobs[id := t.jobs[id]]
    requires t.inputBytes == s.inputBytes && t.jobs[id].input == s.jobs[id].input
    requires t.outputBytes == s.outputBytes - |s.jobs[id].output| + |t.jobs[id].output| <= MAX_OUTPUT
    ensures Budgets(t)
  {
    TotalUpdate(s.order, s.jobs, InputSize, id, t.jobs[id]);
    TotalUpdate(s.order, s.jobs, OutputSize, id, t.jobs[id]);
  }

  lemma FinishIsFate(s: State, id: string, code: int, reason: Reason)
    requires id in s.jobs
    ensures OnlyFate(s, FinishJob(s, id, code, reason), id)
  {
    assert s.jobs == s.jobs[id := s.jobs[id]];
  }

  lemma FateAfter(s: State, u: State, t: State, id: string)
    requires OnlyFate(s, u, id) && OnlyFate(u, t, id)
    ensures OnlyFate(s, t, id)
  {}

  lemma DecideIsFate(s: State, id: string, allowed: bool)
    requires id in s.jobs
    ensures OnlyFate(s, DoDecide(s, id, allowed), id)
  {
    if !(allowed && Open(s)) {
      FinishIsFate(WithoutHandler(s, id), id, -1, if Open(s) then Denied else StoppedFirst);
    }
  }

  lemma ExitIsFate(s: State, id: string, code: int, failure: Option<bytes>, dir: bytes)
    requires id in s.jobs
    ensures OnlyFate(s, DoExit(s, id, code, failure, dir), id)
  {
    var u := WithDir(s, id, if failure.None? then dir else []);
    var reason := if failure.None? then NoError else RunFailed(failure.value);
    FinishIsFate(u, id, code, reason);
    FateAfter(s, u, FinishJob(u, id, code, reason), id);
  }

  lemma CancelIsFate(s: State, id: string)
    requires id in s.jobs
    ensures OnlyFate(s, DoCancel(s, id), id)
  {
    FinishIsFate(s.(stopping := true), id, -1, Cancelled);
    assert s.jobs == s.jobs[id := s.jobs[id]];
  }

  predicate DecidesFate(step: Step) {
    step.ResolveFails? || step.Decide? || step.Exit? || step.Cancel?
  }

  lemma FateSteps(s: State, step: Step)
    requires Enabled(s, step) && DecidesFate(step)
    ensures OnlyFate(s, Perform(s, step), step.id)
  {
    var id := step.id;
    match step
    case ResolveFails(_) => FinishIsFate(WithoutHandler(s, id), id, -1, ShutWorkspace);
    case Decide(_, allowed) => DecideIsFate(s, id, allowed);
    case Exit(_, code, failure, dir) => ExitIsFate(s, id, code, failure, dir);
    case Cancel(_) => CancelIsFate(s, id);
  }

  lemma BudgetsKept(s: State, step: Step)
    requires Budgets(s) && Enabled(s, step)
    ensures Budgets(Perform(s, step))
  {
    if step.Reserve? {
      if Outcome(s, step.id, step.input).Fresh? { ReserveBudgets(s, step.id, step.input); }
    } else if step.Emit? {
      ReplaceKeepsBudgets(s, DoEmit(s, step.id, step.p), step.id);
    } else if DecidesFate(step) {
      FateSteps(s, step);
      ReplaceKeepsBudgets(s, Perform(s, step), step.id);
    }
  }

  lemma EmitOutputs(s: State, id: string, p: bytes)
    requires Traces(s) && Outputs(s) && Enabled(s, Emit(id, p))
    ensures Outputs(DoEmit(s, id, p))
  {
    var t := DoEmit(s, id, p);
    assert JobOutput(s, id) && JobTraces(s, id);
    var j, w := s.jobs[id], s.written[id];
    assert |j.output| == j.total ==> j.output == w;
    forall x | x in t.jobs && x != id ensures JobOutput(t, x) {
      assert JobOutput(s, x);
    }
  }

  /** Steps that leave every output, total and history of writes as they were. */
  lemma CalmOutputs(s: State, t: State)
    requires Outputs(s) && t.written == s.written && t.outputBytes == s.outputBytes
    requires t.jobs.Keys == s.jobs.Keys
    requires forall x :: x in s.jobs ==> t.jobs[x].output == s.jobs[x].output && t.jobs[x].total == s.jobs[x].total
    requires s.dispatched <= t.dispatched
    ensures Outputs(t)
  {
    forall x | x in t.jobs ensures JobOutput(t, x) {
      assert JobOutput(s, x);
    }
  }

  lemma ReserveOutputs(s: State, id: string, input: Input)
    requires Outputs(s)
    ensures Outputs(DoReserve(s, id, input))
  {
    var t := DoReserve(s, id, input);
    forall x | x in t.jobs ensures JobOutput(t, x) {
      assert x in s.jobs ==> JobOutput(s, x);
    }
  }

  lemma OutputsKept(s: State, step: Step)
    requires Traces(s) && Outputs(s) && Enabled(s, step)
    ensures Outputs(Perform(s, step))
  {
    if step.Emit? {
      EmitOutputs(s, step.id, step.p);
    } else if step.Reserve? {
      ReserveOutputs(s, step.id, step.input);
    } else {
      if DecidesFate(step) { FateSteps(s, step); }
      CalmOutputs(s, Perform(s, step));
    }
  }

  lemma InvKept(s: State, step: Step)
    requires Inv(s)
    ensures Inv(Apply(s, step))
  {
    if Enabled(s, step) {
      ThreadsKept(s, step);
      TracesKept(s, step);
      BudgetsKept(s, step);
      OutputsKept(s, step);
    }
  }

  lemma {:induction false} InvAlways(s: State, steps: seq<Step>)
    requires Inv(s)
    ensures Inv(Run(s, steps))
    decreases |steps|
  {
    if steps != [] {
      InvKept(s, steps[0]);
      InvAlways(Apply(s, steps[0]), steps[1..]);
    }
  }

  // ---------- what holds over whole runs ----------

  lemma StopIsSticky(s: State, step: Step)
    ensures var t := Apply(s, step);
            && (s.closed ==> t.closed) && (s.stopping ==> t.stopping) && (s.quiet ==> t.quiet)
            && (s.closed || s.stopping ==> t.dispatched == s.dispatched)
  {
    if Enabled(s, step) && step.Decide? {
      assert Perform(s, step) == DoDecide(s, step.id, step.allowed);
    }
  }

  /** No verdict reaches a request that already has one. */
  lemma FirstVerdictStands(s: State, step: Step)
    requires Threads(s) && Enabled(s, step) && DecidesFate(step)
    requires s.jobs[step.id].done
    ensures Perform(s, step).jobs == s.jobs
  {
    assert JobThreads(s, step.id);
  }

  lemma JobsAreSticky(s: State, step: Step, id: string)
    requires Threads(s) && id in s.jobs
    ensures var t := Apply(s, step);
            && id in t.jobs && t.jobs[id].input == s.jobs[id].input
            && (s.jobs[id].done ==> t.jobs[id] == s.jobs[id])
  {
    if Enabled(s, step) {
      assert JobThreads(s, id);
      if DecidesFate(step) {
        FateSteps(s, step);
        if s.jobs[step.id].done { FirstVerdictStands(s, step); }
      }
    }
  }

  /** Once a cancel or close has taken effect, no command starts any more. */
  lemma {:induction false} NoDispatchAfterStop(s: State, steps: seq<Step>)
    requires s.closed || s.stopping
    ensures var t := Run(s, steps); (t.closed || t.stopping) && t.dispatched == s.dispatched
    decreases |steps|
  {
    if steps != [] {
      StopIsSticky(s, steps[0]);
      NoDispatchAfterStop(Apply(s, steps[0]), steps[1..]);
    }
  }

  /** When a cancel or close has returned, no command is running, then or later. */
  lemma {:induction false} QuietForever(s: State, steps: seq<Step>)
    requires Inv(s) && s.quiet
    ensures var t := Run(s, steps); t.quiet && forall id :: id in t.jobs ==> t.jobs[id].phase != Running
    decreases |steps|
  {
    if steps == [] {
      forall id | id in s.jobs ensures s.jobs[id].phase != Running {
        assert JobThreads(s, id);
      }
    } else {
      InvKept(s, steps[0]);
      StopIsSticky(s, steps[0]);
      QuietForever(Apply(s, steps[0]), steps[1..]);
    }
  }

  /** A finished request's whole record - output, exit code, reason - never changes. */
  lemma {:induction false} FinishedIsFinal(s: State, steps: seq<Step>, id: string)
    requires Inv(s) && id in s.jobs && s.jobs[id].done
    ensures var t := Run(s, steps); id in t.jobs && t.jobs[id] == s.jobs[id]
    decreases |steps|
  {
    if steps != [] {
      InvKept(s, steps[0]);
      JobsAreSticky(s, steps[0], id);
      FinishedIsFinal(Apply(s, steps[0]), steps[1..], id);
    }
  }

  /** However a run continues after a request is recorded, delivering the id again
      starts nothing: it is the same request, or a conflict, by the recorded input. */
  lemma {:induction false} ReplayNeverStarts(s: State, steps: seq<Step>, id: string, input: Input)
    requires Inv(s) && id in s.jobs
    ensures var t := Run(s, steps);
            && Outcome(t, id, input) == (if input == s.jobs[id].input then Duplicate else Conflict)
            && Apply(t, Reserve(id, input)) == t
    decreases |steps|
  {
    assert JobThreads(s, id);
    if steps != [] {
      InvKept(s, steps[0]);
      JobsAreSticky(s, steps[0], id);
      ReplayNeverStarts(Apply(s, steps[0]), steps[1..], id, input);
    }
  }

  /** A request cancelled while its approval was pending is never dispatched. */
  lemma CancelBeatsApproval(s: State, id: string, steps: seq<Step>)
    requires Inv(s) && Enabled(s, Cancel(id)) && s.jobs[id].phase == Approving
    ensures var t := Run(Perform(s, Cancel(id)), steps);
            id !in t.dispatched && id in t.jobs && t.jobs[id].done && t.jobs[id].reason == Cancelled
  {
    var u := Perform(s, Cancel(id));
    assert JobTraces(s, id) && JobThreads(s, id);
    InvKept(s, Cancel(id));
    NoDispatchAfterStop(u, steps);
    FinishedIsFinal(u, steps, id);
  }

  /** Every interleaving from an open workspace keeps the ledger's promises. */
  lemma LedgerPromises(steps: seq<Step>)
    ensures var t := Run(INITIAL, steps);
            && NoDup(t.dispatched) && NoDup(t.signalled)
            && (forall id :: id in t.jobs && !t.jobs[id].done <==> id == t.active && id != "")
            && |t.jobs| <= MAX_REQUESTS && NoDup(t.order) && (forall id :: id in t.order <==> id in t.jobs)
            && t.inputBytes == Total(t.order, t.jobs, InputSize) <= MAX_INPUT
            && t.outputBytes == Total(t.order, t.jobs, OutputSize) <= MAX_OUTPUT
            && t.written.Keys == t.jobs.Keys
            && forall id :: id in t.jobs ==>
                 && t.jobs[id].output <= t.written[id] && t.jobs[id].total == |t.written[id]|
                 && (id !in t.dispatched ==> t.written[id] == [])
  {
    InvInitially();
    InvAlways(INITIAL, steps);
    var t := Run(INITIAL, steps);
    forall id | id in t.jobs
      ensures JobThreads(t, id) && JobOutput(t, id)
    {}
  }
}
