/** What the answers and the endings of a request come to, over whole runs: who may start a
    command, which verdict a request keeps, what its output holds, and what a stop stops. */
module WorkspaceVerdicts {
  import opened Common
  import opened Workspace

  // ---------- reserving ----------

  /** A request is recorded exactly when its id is good and new and the workspace is open,
      idle and within its budgets. */
  predicate Recordable(s: State, id: string, input: Input) {
    && ValidRequest(id) && id !in s.jobs
    && !s.closed && !s.stopping && !s.shellClosed && s.active == "" && |s.jobs| < 128
    && s.inputBytes + |input.command| + |input.cwd| + |input.script| <= 0x10_0000
  }

  /** Then it waits for its approval, as the active one; otherwise nothing changes. */
  lemma ReservedExactly(s: State, id: string, input: Input)
    ensures var t := Apply(s, Reserve(id, input));
            if Recordable(s, id, input) then
              && t.jobs == s.jobs[id := Job(input, Approving, false, [], 0, 0, NoError, [])]
              && t.active == id && Enabled(t, Decide(id, true)) && t.order == s.order + [id]
              && t.inputBytes == s.inputBytes + |input.command| + |input.cwd| + |input.script|
            else t == s
    ensures Outcome(s, id, input).Fresh? <==> Recordable(s, id, input)
  {}

  /** A replay is told from a conflict, and a refusal names the first reason there is. */
  lemma AnswersExactly(s: State, id: string, input: Input)
    ensures var r := Outcome(s, id, input);
            && (r.BadRequestId? <==> !ValidRequest(id))
            && (r.Duplicate? <==> ValidRequest(id) && id in s.jobs && s.jobs[id].input == input)
            && (r.Conflict? <==> ValidRequest(id) && id in s.jobs && s.jobs[id].input != input)
            && (r in {Unavailable, Busy, LedgerFull, InputFull} <==>
                  ValidRequest(id) && id !in s.jobs && !Recordable(s, id, input))
            && (r.Busy? ==> !s.closed && !s.stopping && !s.shellClosed && s.active != "")
            && (r.LedgerFull? ==> s.active == "" && |s.jobs| >= 128)
            && (r.InputFull? ==> s.active == "" && |s.jobs| < 128)
            && (r.Unavailable? ==> s.closed || s.stopping || s.shellClosed)
  {}

  // ---------- who may start a command ----------

  /** In the run a yes of the gate for id reaches its request while the workspace is open. */
  ghost predicate Allows(s: State, steps: seq<Step>, id: string)
    decreases |steps|
  {
    steps != [] &&
    ((steps[0] == Decide(id, true) && Enabled(s, steps[0]) && !s.closed && !s.stopping && !s.shellClosed)
     || Allows(Apply(s, steps[0]), steps[1..], id))
  }

  lemma FinishDispatchesNothing(s: State, id: string, code: int, reason: Reason)
    requires id in s.jobs
    ensures FinishJob(s, id, code, reason).dispatched == s.dispatched
  {}

  lemma DecideDispatches(s: State, at: string, allowed: bool)
    requires at in s.jobs
    ensures DoDecide(s, at, allowed).dispatched == s.dispatched + (if allowed && Open(s) then [at] else [])
  {
    FinishDispatchesNothing(WithoutHandler(s, at), at, -1, if Open(s) then Denied else StoppedFirst);
  }

  lemma DispatchedStep(s: State, step: Step, id: string)
    ensures id in Apply(s, step).dispatched <==>
            id in s.dispatched
            || (step == Decide(id, true) && Enabled(s, step) && !s.closed && !s.stopping && !s.shellClosed)
  {
    if Enabled(s, step) {
      match step
      case Decide(at, allowed) => DecideDispatches(s, at, allowed);
      case ResolveFails(at) => FinishDispatchesNothing(WithoutHandler(s, at), at, -1, ShutWorkspace);
      case Exit(at, code, failure, dir) =>
        FinishDispatchesNothing(WithDir(s, at, if failure.None? then dir else []), at, code,
                                if failure.None? then NoError else RunFailed(failure.value));
      case Cancel(at) => FinishDispatchesNothing(s.(stopping := true), at, -1, Cancelled);
      case _ =>
    }
  }

  /** Exactly such requests are ever dispatched. */
  lemma {:induction false} DispatchedExactly(s: State, steps: seq<Step>, id: string)
    ensures id in Run(s, steps).dispatched <==> id in s.dispatched || Allows(s, steps, id)
    decreases |steps|
  {
    if steps != [] {
      DispatchedStep(s, steps[0], id);
      DispatchedExactly(Apply(s, steps[0]), steps[1..], id);
    }
  }

  lemma AnsweredStep(s: State, step: Step, id: string)
    requires id in s.jobs && id !in s.handlers
    ensures var t := Apply(s, step); id in t.jobs && id !in t.handlers
  {
    if Enabled(s, step) && DecidesFate(step) { FateSteps(s, step); }
  }

  /** A request whose answer has been taken and that was not started never will be. */
  lemma {:induction false} DecidedOnce(s: State, steps: seq<Step>, id: string)
    requires id in s.jobs && id !in s.handlers && id !in s.dispatched
    ensures id !in Run(s, steps).dispatched
    decreases |steps|
  {
    if steps != [] {
      DispatchedStep(s, steps[0], id);
      AnsweredStep(s, steps[0], id);
      DecidedOnce(Apply(s, steps[0]), steps[1..], id);
    }
  }

  /** A yes starts the command, unless a stop came in between. */
  lemma YesStarts(s: State, id: string, steps: seq<Step>)
    requires Enabled(s, Decide(id, true)) && !s.closed && !s.stopping && !s.shellClosed
    ensures var t := Apply(s, Decide(id, true));
            && t.jobs[id] == s.jobs[id].(phase := Running) && id in t.waitGroup
            && id in Run(t, steps).dispatched
  {
    DispatchedExactly(Apply(s, Decide(id, true)), steps, id);
  }

  lemma NoEnds(s: State, id: string, allowed: bool)
    requires Inv(s) && Enabled(s, Decide(id, allowed)) && (!allowed || s.closed || s.stopping || s.shellClosed)
    ensures var t := Apply(s, Decide(id, allowed));
            && id in t.jobs && t.jobs[id].done && id !in t.handlers && id !in t.dispatched
            && (!s.jobs[id].done ==> t.jobs[id].code == -1)
            && (!s.jobs[id].done ==>
                  t.jobs[id].reason == if s.closed || s.stopping || s.shellClosed then StoppedFirst else Denied)
  {
    assert JobTraces(s, id);
  }

  /** A no is final: the command never runs, and the request ends with -1, as denied or,
      behind a stop, as stopped, which nothing changes any more. */
  lemma NoIsFinal(s: State, id: string, allowed: bool, steps: seq<Step>)
    requires Inv(s) && Enabled(s, Decide(id, allowed)) && (!allowed || s.closed || s.stopping || s.shellClosed)
    ensures var t := Apply(s, Decide(id, allowed));
            var u := Run(t, steps);
            && id !in u.dispatched && id in u.jobs && u.jobs[id] == t.jobs[id] && t.jobs[id].done
            && (!s.jobs[id].done ==> t.jobs[id].code == -1)
            && (!s.jobs[id].done ==>
                  t.jobs[id].reason == if s.closed || s.stopping || s.shellClosed then StoppedFirst else Denied)
  {
    var t := Apply(s, Decide(id, allowed));
    NoEnds(s, id, allowed);
    InvKept(s, Decide(id, allowed));
    DecidedOnce(t, steps, id);
    FinishedIsFinal(t, steps, id);
  }

  // ---------- the verdict a request keeps ----------

  datatype Verdict = Verdict(code: int, reason: Reason, dirAfter: bytes)

  /** An open request carries no verdict yet. */
  ghost predicate Unmarked(s: State) {
    forall id :: id in s.jobs && !s.jobs[id].done ==> s.jobs[id].reason == NoError && s.jobs[id].dirAfter == []
  }

  function VerdictOn(j: Job): Verdict {
    Verdict(j.code, j.reason, j.dirAfter)
  }

  /** What a step makes the verdict on request id, if it ends it. */
  function Ends(s: State, step: Step, id: string): Option<Verdict> {
    if !Enabled(s, step) then None
    else
      match step
      case ResolveFails(x) => if x == id then Some(Verdict(-1, ShutWorkspace, [])) else None
      case Decide(x, allowed) =>
        if x != id || (allowed && Open(s)) then None
        else Some(Verdict(-1, if Open(s) then Denied else StoppedFirst, []))
      case Exit(x, code, failure, dir) =>
        if x != id then None
        else if failure.None? then Some(Verdict(code, NoError, dir))
        else Some(Verdict(code, RunFailed(failure.value), []))
      case Cancel(x) => if x == id && s.jobs[x].phase == Approving then Some(Verdict(-1, Cancelled, [])) else None
      case _ => None
  }

  /** What a step leaves of an open request: a verdict, or none. */
  ghost predicate Left(s: State, t: State, step: Step, id: string)
    requires id in s.jobs
  {
    && id in t.jobs && (t.jobs[id].done <==> Ends(s, step, id).Some?)
    && (t.jobs[id].done ==> VerdictOn(t.jobs[id]) == Ends(s, step, id).value)
    && (!t.jobs[id].done ==> t.jobs[id].reason == s.jobs[id].reason && t.jobs[id].dirAfter == s.jobs[id].dirAfter)
  }

  lemma FinishGives(s: State, id: string, code: int, reason: Reason)
    requires id in s.jobs && !s.jobs[id].done && s.jobs[id].reason == NoError
    ensures var j := FinishJob(s, id, code, reason).jobs[id];
            j.done && j.code == code && j.reason == reason && j.dirAfter == s.jobs[id].dirAfter
  {}

  lemma DecideLeaves(s: State, id: string, allowed: bool)
    requires Enabled(s, Decide(id, allowed)) && !s.jobs[id].done
    requires s.jobs[id].reason == NoError && s.jobs[id].dirAfter == []
    ensures Left(s, DoDecide(s, id, allowed), Decide(id, allowed), id)
  {
    if !(allowed && Open(s)) {
      FinishGives(WithoutHandler(s, id), id, -1, if Open(s) then Denied else StoppedFirst);
    }
  }

  lemma ExitLeaves(s: State, id: string, code: int, failure: Option<bytes>, dir: bytes)
    requires Enabled(s, Exit(id, code, failure, dir)) && !s.jobs[id].done && s.jobs[id].reason == NoError
    ensures Left(s, DoExit(s, id, code, failure, dir), Exit(id, code, failure, dir), id)
  {
    FinishGives(WithDir(s, id, if failure.None? then dir else []), id, code,
                if failure.None? then NoError else RunFailed(failure.value));
  }

  lemma CancelLeaves(s: State, id: string)
    requires Enabled(s, Cancel(id)) && !s.jobs[id].done
    requires s.jobs[id].reason == NoError && s.jobs[id].dirAfter == []
    ensures Left(s, DoCancel(s, id), Cancel(id), id)
  {
    FinishGives(s.(stopping := true), id, -1, Cancelled);
  }

  lemma OwnVerdict(s: State, step: Step, id: string)
    requires Enabled(s, step) && DecidesFate(step) && step.id == id && !s.jobs[id].done
    requires s.jobs[id].reason == NoError && s.jobs[id].dirAfter == []
    ensures Left(s, Apply(s, step), step, id)
  {
    match step
    case ResolveFails(_) => FinishGives(WithoutHandler(s, id), id, -1, ShutWorkspace);
    case Decide(_, allowed) => DecideLeaves(s, id, allowed);
    case Exit(_, code, failure, dir) => ExitLeaves(s, id, code, failure, dir);
    case Cancel(_) => CancelLeaves(s, id);
  }

  /** The steps that give no verdict. */
  lemma OtherStep(s: State, step: Step, id: string)
    requires Enabled(s, step) && !DecidesFate(step) && id in s.jobs
    ensures var t := Apply(s, step);
            && id in t.jobs && t.jobs[id].done == s.jobs[id].done
            && t.jobs[id].reason == s.jobs[id].reason && t.jobs[id].dirAfter == s.jobs[id].dirAfter
  {
    if step.Reserve? {
      assert Apply(s, step) == DoReserve(s, step.id, step.input);
    } else if step.Emit? {
      assert Apply(s, step) == DoEmit(s, step.id, step.p);
    }
  }

  lemma VerdictStep(s: State, step: Step, id: string)
    requires Inv(s) && Unmarked(s) && id in s.jobs && !s.jobs[id].done
    ensures Left(s, Apply(s, step), step, id)
  {
    if Enabled(s, step) {
      if !DecidesFate(step) {
        OtherStep(s, step, id);
      } else if step.id == id {
        OwnVerdict(s, step, id);
      } else {
        FateSteps(s, step);
      }
    }
  }

  lemma UnmarkedKept(s: State, step: Step)
    requires Inv(s) && Unmarked(s)
    ensures Unmarked(Apply(s, step))
  {
    var t := Apply(s, step);
    forall id | id in t.jobs && !t.jobs[id].done ensures t.jobs[id].reason == NoError && t.jobs[id].dirAfter == [] {
      if id in s.jobs {
        JobsAreSticky(s, step, id);
        VerdictStep(s, step, id);
      } else {
        NewRequest(s, step, id);
      }
    }
  }

  lemma NewRequest(s: State, step: Step, id: string)
    requires id !in s.jobs && id in Apply(s, step).jobs
    ensures Apply(s, step).jobs[id].reason == NoError && Apply(s, step).jobs[id].dirAfter == []
    ensures !Apply(s, step).jobs[id].done
  {
    if Enabled(s, step) && DecidesFate(step) { FateSteps(s, step); }
  }

  /** The first verdict on a request in a run. */
  function FirstVerdict(s: State, steps: seq<Step>, id: string): Option<Verdict>
    decreases |steps|
  {
    if steps == [] then None
    else if id in s.jobs && Ends(s, steps[0], id).Some? then Ends(s, steps[0], id)
    else FirstVerdict(Apply(s, steps[0]), steps[1..], id)
  }

  /** A request is finished if and only if some step has given it a verdict, and its record
      carries the first one for good: the code, the failure and the directory of its command's
      exit, or why it never ran. */
  lemma {:induction false} VerdictIsFirst(s: State, steps: seq<Step>, id: string)
    requires Inv(s) && Unmarked(s) && (id in s.jobs ==> !s.jobs[id].done)
    ensures var t := Run(s, steps);
            && (id in t.jobs && t.jobs[id].done <==> FirstVerdict(s, steps, id).Some?)
            && (FirstVerdict(s, steps, id).Some? ==> VerdictOn(t.jobs[id]) == FirstVerdict(s, steps, id).value)
    decreases |steps|
  {
    if steps != [] {
      var t := Apply(s, steps[0]);
      InvKept(s, steps[0]);
      UnmarkedKept(s, steps[0]);
      if id in s.jobs {
        VerdictStep(s, steps[0], id);
      } else if id in t.jobs {
        NewRequest(s, steps[0], id);
      }
      if id in t.jobs && t.jobs[id].done {
        FinishedIsFinal(t, steps[1..], id);
      } else {
        VerdictIsFirst(t, steps[1..], id);
      }
    }
  }

  lemma VerdictsFromStart(steps: seq<Step>, id: string)
    ensures var t := Run(INITIAL, steps);
            && (id in t.jobs && t.jobs[id].done <==> FirstVerdict(INITIAL, steps, id).Some?)
            && (FirstVerdict(INITIAL, steps, id).Some? ==>
                  VerdictOn(t.jobs[id]) == FirstVerdict(INITIAL, steps, id).value)
  {
    InvInitially();
    VerdictIsFirst(INITIAL, steps, id);
  }

  // ---------- what was written ----------

  /** What the command of request id writes in the run, while it runs. */
  function Emissions(s: State, steps: seq<Step>, id: string): bytes
    decreases |steps|
  {
    if steps == [] then []
    else Emission(s, steps[0], id) + Emissions(Apply(s, steps[0]), steps[1..], id)
  }

  function WrittenOf(s: State, id: string): bytes {
    if id in s.written then s.written[id] else []
  }

  /** What one step writes. */
  function Emission(s: State, step: Step, id: string): bytes {
    if step.Emit? && step.id == id && Enabled(s, step) then step.p else []
  }

  lemma WrittenStep(s: State, step: Step, id: string)
    requires s.written.Keys == s.jobs.Keys
    ensures WrittenOf(Apply(s, step), id) == WrittenOf(s, id) + Emission(s, step, id)
  {
    assert WrittenOf(s, id) + [] == WrittenOf(s, id);
    if step.Emit? && Enabled(s, step) {
      EmitWrites(s, step.id, step.p, id);
    } else if step.Reserve? {
      ReservedWrites(s, step.id, step.input, id);
    } else {
      OthersWriteNothing(s, step);
    }
  }

  lemma EmitWrites(s: State, at: string, p: bytes, id: string)
    requires at in s.jobs && at in s.written
    ensures WrittenOf(DoEmit(s, at, p), id) == if at == id then WrittenOf(s, id) + p else WrittenOf(s, id)
  {}

  lemma OthersWriteNothing(s: State, step: Step)
    requires !step.Reserve? && (step.Emit? ==> !Enabled(s, step))
    ensures Apply(s, step).written == s.written
  {
    if Enabled(s, step) && DecidesFate(step) { FateSteps(s, step); }
  }

  lemma ReservedWrites(s: State, at: string, input: Input, id: string)
    requires s.written.Keys == s.jobs.Keys
    ensures WrittenOf(DoReserve(s, at, input), id) == WrittenOf(s, id)
  {}

  lemma {:induction false} WrittenIsEmitted(s: State, steps: seq<Step>, id: string)
    requires Inv(s)
    ensures WrittenOf(Run(s, steps), id) == WrittenOf(s, id) + Emissions(s, steps, id)
    decreases |steps|
  {
    if steps == [] {
      assert WrittenOf(s, id) + [] == WrittenOf(s, id);
    } else {
      InvKept(s, steps[0]);
      WrittenStep(s, steps[0], id);
      WrittenIsEmitted(Apply(s, steps[0]), steps[1..], id);
      Assoc(WrittenOf(s, id), Emission(s, steps[0], id), Emissions(Apply(s, steps[0]), steps[1..], id));
    }
  }

  /** A request's output is the beginning of what its command has written in the run, and all
      of it as long as the workspace's output budget is not used up. */
  lemma OutputIsEmitted(steps: seq<Step>, id: string)
    ensures var t := Run(INITIAL, steps);
            id in t.jobs ==>
              && t.jobs[id].output <= Emissions(INITIAL, steps, id)
              && t.jobs[id].total == |Emissions(INITIAL, steps, id)|
              && (t.outputBytes < 0x80_0000 ==> t.jobs[id].output == Emissions(INITIAL, steps, id))
  {
    InvInitially();
    InvAlways(INITIAL, steps);
    WrittenIsEmitted(INITIAL, steps, id);
    var t := Run(INITIAL, steps);
    if id in t.jobs {
      assert JobOutput(t, id);
      assert [] + Emissions(INITIAL, steps, id) == Emissions(INITIAL, steps, id);
    }
  }

  // ---------- what a stop stops ----------

  predicate Stops(step: Step) {
    step.Cancel? || step.CloseBegins? || step.ShellDies? || step.CancelReturns? || step.CloseReturns?
  }

  predicate IsShut(s: State) {
    s.closed || s.stopping || s.shellClosed
  }

  lemma ShutStep(s: State, step: Step)
    requires IsShut(s)
    ensures IsShut(Apply(s, step)) && Apply(s, step).dispatched == s.dispatched
  {
    if step.Decide? && Enabled(s, step) {
      assert Perform(s, step) == DoDecide(s, step.id, step.allowed);
    }
  }

  lemma {:induction false} ShutStaysShut(s: State, steps: seq<Step>)
    requires IsShut(s)
    ensures IsShut(Run(s, steps)) && Run(s, steps).dispatched == s.dispatched
    decreases |steps|
  {
    if steps != [] {
      ShutStep(s, steps[0]);
      ShutStaysShut(Apply(s, steps[0]), steps[1..]);
    }
  }

  /** Behind a cancel, a close or the death of the shell no command starts and no request is
      recorded any more. */
  lemma StopIsForGood(s: State, stop: Step, steps: seq<Step>, id: string, input: Input)
    requires Stops(stop) && Enabled(s, stop)
    ensures var t := Run(Apply(s, stop), steps);
            t.dispatched == s.dispatched && !Recordable(t, id, input)
  {
    ShutStaysShut(Apply(s, stop), steps);
  }

  /** When a cancel or close has returned, no command runs, then or at any later point, and
      the shell is shut. */
  lemma ReturnedMeansQuiet(s: State, back: Step, steps: seq<Step>)
    requires Inv(s) && Enabled(s, back) && (back.CancelReturns? || back.CloseReturns?)
    ensures Apply(s, back).shellClosed
    ensures var t := Run(Apply(s, back), steps);
            t.dispatched == s.dispatched && forall id :: id in t.jobs ==> t.jobs[id].phase != Running
  {
    InvKept(s, back);
    QuietForever(Apply(s, back), steps);
    ShutStaysShut(Apply(s, back), steps);
  }

  /** A cancel stops the workspace, ends a request that waits for its approval at once, and
      leaves a running one to its command. */
  lemma CancelExactly(s: State, id: string)
    requires Enabled(s, Cancel(id)) && !s.jobs[id].done
    ensures var t := Apply(s, Cancel(id));
            && t.stopping
            && (if s.jobs[id].phase == Approving then
                  && t.jobs[id] == s.jobs[id].(code := -1, done := true, phase := Finished, reason := Cancelled)
                  && t.jobs == s.jobs[id := t.jobs[id]] && t.active == ""
                else t.jobs == s.jobs && t.active == id)
  {}

  lemma ExitEnds(s: State, id: string)
    requires id in s.jobs && s.jobs[id].phase == Running && !s.jobs[id].done
    ensures var t := Apply(s, Exit(id, -1, None, []));
            && t.waitGroup == s.waitGroup && t.closed == s.closed && t.stopping == s.stopping
            && id in t.jobs && t.jobs[id].done
  {}

  lemma DepartLeaves(s: State, id: string)
    requires id in s.waitGroup && id in s.jobs && s.jobs[id].done
    ensures var t := Apply(s, Depart(id));
            t.waitGroup == s.waitGroup - {id} && t.closed == s.closed && t.stopping == s.stopping
  {}

  lemma {:induction false} RunAppend(s: State, a: seq<Step>, b: seq<Step>)
    ensures Run(s, a + b) == Run(Run(s, a), b)
    decreases |a|
  {
    if a == [] {
      assert a + b == b;
    } else {
      assert (a + b)[0] == a[0] && (a + b)[1..] == a[1..] + b;
      RunAppend(Apply(s, a[0]), a[1..], b);
    }
  }

  predicate Winds(steps: seq<Step>) {
    forall step :: step in steps ==> step.Exit? || step.Depart?
  }

  lemma OneStep(s: State, a: Step)
    ensures Run(s, [a]) == Apply(s, a)
  {
    assert [a][1..] == [];
  }

  lemma TwoSteps(s: State, a: Step, b: Step)
    ensures Run(s, [a, b]) == Apply(Apply(s, a), b)
  {
    assert [a, b][1..] == [b];
    OneStep(Apply(s, a), b);
  }

  /** A command still running ends, and its goroutine leaves. */
  lemma OneLeaves(s: State, id: string) returns (steps: seq<Step>)
    requires id in s.waitGroup && id in s.jobs && (s.jobs[id].done || s.jobs[id].phase == Running)
    ensures Winds(steps)
    ensures var t := Run(s, steps);
            t.waitGroup == s.waitGroup - {id} && t.closed == s.closed && t.stopping == s.stopping
  {
    var exit := Exit(id, -1, None, []);
    if s.jobs[id].done {
      steps := [Depart(id)];
      OneStep(s, Depart(id));
      DepartLeaves(s, id);
    } else {
      steps := [exit, Depart(id)];
      TwoSteps(s, exit, Depart(id));
      ExitEnds(s, id);
      DepartLeaves(Apply(s, exit), id);
    }
  }

  /** The steps of the commands' goroutines alone empty the wait group, behind which a cancel
      or close returns. */
  lemma {:induction false} StopCanReturn(s: State) returns (steps: seq<Step>)
    requires Inv(s) && (s.closed || s.stopping)
    ensures Winds(steps)
    ensures var t := Run(s, steps); t.waitGroup == {} && t.closed == s.closed && t.stopping == s.stopping
    decreases |s.waitGroup|
  {
    if s.waitGroup == {} {
      return [];
    }
    var id :| id in s.waitGroup;
    assert JobThreads(s, id);
    var head := OneLeaves(s, id);
    InvAlways(s, head);
    var more := StopCanReturn(Run(s, head));
    RunAppend(s, head, more);
    steps := head + more;
  }
}
