/** The workspace as the object it is: fields updated in place inside critical
    sections, each of which performs the step that Workspace describes, the snapshot
    that answers a poll, and the controller's loop that waits for a command. */
module WorkspaceDevice {
  import opened Common
  import opened Workspace
  import WorkspacePages

  datatype PollError = UnknownRequest | OffsetOutside

  /** stateLocked's three answers. */
  datatype Condition = IsOpen | IsInvalid | IsClosed

  datatype Page = Page(output: bytes, nextOffset: nat, phase: Phase, done: bool, code: int, reason: Reason,
                       outputBytes: nat, retainedBytes: nat, truncated: bool, dirAfter: bytes)

  datatype PollResult = Answer(state: Condition, active: string, page: Option<Page>) | Refused(error: PollError)

  /** The page a snapshot must return for one job's record. */
  function PageOf(j: Job, offset: nat): Page
    requires offset <= |j.output|
  {
    var e := WorkspacePages.NextOffset(j.output, offset, j.done, j.total);
    Page(j.output[offset..e], e, j.phase, j.done, j.code, j.reason, j.total, |j.output|,
         j.total > |j.output|, j.dirAfter)
  }

  class Device {
    var closed: bool
    var stopping: bool
    var shellClosed: bool
    var active: string
    var jobs: map<string, Job>
    var outputBytes: int
    var inputBytes: int
    var waitGroup: set<string>
    ghost var order: seq<string>
    ghost var handlers: set<string>
    ghost var dispatched: seq<string>
    ghost var signalled: seq<string>
    ghost var written: map<string, bytes>
    ghost var quiet: bool

    ghost function Abs(): State
      reads this
    {
      State(closed, stopping, shellClosed, active, jobs, outputBytes, inputBytes, waitGroup,
            order, handlers, dispatched, signalled, written, quiet)
    }

    constructor ()
      ensures Abs() == INITIAL
    {
      closed, stopping, shellClosed, active := false, false, false, "";
      jobs, outputBytes, inputBytes, waitGroup := map[], 0, 0, {};
      order, handlers, dispatched, signalled, written, quiet := [], {}, [], [], map[], false;
    }

    method CheckRequest(id: string, input: Input) returns (r: Reservation)
      ensures r == Outcome(Abs(), id, input)
    {
      if !ValidRequest(id) { return BadRequestId; }
      if id in jobs {
        return if jobs[id].input != input then Conflict else Duplicate;
      }
      if closed || stopping || shellClosed { return Unavailable; }
      if active != "" { return Busy; }
      if |jobs| >= MAX_REQUESTS { return LedgerFull; }
      if Cost(input) > MAX_INPUT - inputBytes { return InputFull; }
      return Fresh;
    }

    method RecordRequest(id: string, input: Input)
      modifies this
      ensures Abs() == DoRecord(old(Abs()), id, input)
    {
      inputBytes := inputBytes + Cost(input);
      jobs := jobs[id := Job(input, Approving, false, [], 0, 0, NoError, [])];
      active := id;
      order, handlers, written := order + [id], handlers + {id}, written[id := []];
    }

    /** Records a request before its approval, so that deliveries of one id share it. */
    method ReserveRequest(id: string, input: Input) returns (r: Reservation)
      modifies this
      ensures Abs() == DoReserve(old(Abs()), id, input)
      ensures r == Outcome(old(Abs()), id, input)
    {
      r := CheckRequest(id, input);
      if r == Fresh {
        RecordRequest(id, input);
      }
    }

    /** finishLocked: the first verdict on a request stands. */
    method FinishLocked(id: string, code: int, reason: Reason)
      requires id in jobs
      modifies this
      ensures Abs() == FinishJob(old(Abs()), id, code, reason)
    {
      var j := jobs[id];
      if j.done { return; }
      signalled := signalled + [id];
      j := j.(code := code, done := true, phase := Finished);
      if reason != NoError { j := j.(reason := reason); }
      jobs := jobs[id := j];
      if active == id { active := ""; }
    }

    /** A relative directory that can no longer be resolved ends the request. */
    method ResolveFailed(id: string)
      requires Enabled(Abs(), ResolveFails(id))
      modifies this
      ensures Abs() == Apply(old(Abs()), ResolveFails(id))
    {
      FinishLocked(id, -1, ShutWorkspace);
      handlers := handlers - {id};
    }

    /** The last critical section of a submission: after the gate answered. */
    method DecideRequest(id: string, allowed: bool)
      requires id in handlers && id in jobs
      modifies this
      ensures Abs() == DoDecide(old(Abs()), id, allowed)
      ensures allowed && Open(old(Abs())) ==>
        jobs[id].phase == Running && dispatched == old(dispatched) + [id] && waitGroup == old(waitGroup) + {id}
      ensures !(allowed && Open(old(Abs()))) ==>
        dispatched == old(dispatched) && waitGroup == old(waitGroup) && jobs[id].done
      ensures !allowed && Open(old(Abs())) && !old(jobs)[id].done ==> jobs[id].code == -1 && jobs[id].reason == Denied
    {
      handlers := handlers - {id};
      if !allowed || closed || stopping || shellClosed {
        var why := if closed || stopping || shellClosed then StoppedFirst else Denied;
        FinishLocked(id, -1, why);
        return;
      }
      jobs := jobs[id := jobs[id].(phase := Running)];
      waitGroup := waitGroup + {id};
      dispatched := dispatched + [id];
    }

    /** workspaceWriter.Write: all of p is accepted, what fits the budget is retained. */
    method Write(id: string, p: bytes) returns (n: nat)
      requires id in jobs && id in written && jobs[id].phase == Running
      modifies this
      ensures Abs() == DoEmit(old(Abs()), id, p) && n == |p|
      ensures written == old(written)[id := old(written)[id] + p] && jobs[id].total == old(jobs)[id].total + |p|
    {
      var j := jobs[id];
      j := j.(total := j.total + |p|);
      var kept := if |p| <= MAX_OUTPUT - outputBytes then |p| else MAX_OUTPUT - outputBytes;
      if kept > 0 {
        j := j.(output := j.output + p[..kept]);
        outputBytes := outputBytes + kept;
      } else {
        assert j.output + p[..0] == j.output;
      }
      assert j == jobs[id].(total := jobs[id].total + |p|, output := jobs[id].output + p[..Room(old(Abs()), p)]);
      jobs := jobs[id := j];
      written := written[id := written[id] + p];
      return |p|;
    }

    /** The end of the command's goroutine, still inside the workspace's lock. */
    method CommandExit(id: string, code: int, failure: Option<bytes>, dir: bytes)
      requires id in jobs && jobs[id].phase == Running
      modifies this
      ensures Abs() == DoExit(old(Abs()), id, code, failure, dir)
      ensures !old(jobs)[id].done ==> jobs[id].done && jobs[id].code == code
      ensures !old(jobs)[id].done && failure.Some? ==> jobs[id].reason == RunFailed(failure.value)
      ensures !old(jobs)[id].done ==> jobs[id].dirAfter == if failure.None? then dir else []
    {
      jobs := jobs[id := jobs[id].(dirAfter := if failure.None? then dir else [])];
      FinishLocked(id, code, if failure.None? then NoError else RunFailed(failure.value));
    }

    method LeaveWaitGroup(id: string)
      requires Enabled(Abs(), Depart(id))
      modifies this
      ensures Abs() == Apply(old(Abs()), Depart(id)) && waitGroup == old(waitGroup) - {id}
    {
      waitGroup := waitGroup - {id};
    }

    /** The locked part of cancel; false when id is not the active request. */
    method BeginCancel(id: string) returns (ok: bool)
      requires active != "" ==> active in jobs
      modifies this
      ensures ok <==> id != "" && old(active) == id
      ensures ok ==> stopping && dispatched == old(dispatched)
      ensures ok && old(jobs)[id].phase == Approving ==> id in jobs && jobs[id].done
      ensures Abs() == if ok then DoCancel(old(Abs()), id) else old(Abs())
    {
      if id == "" || active != id { return false; }
      stopping := true;
      if jobs[id].phase == Approving {
        FinishLocked(id, -1, Cancelled);
      }
      return true;
    }

    method BeginClose()
      modifies this
      ensures Abs() == Apply(old(Abs()), CloseBegins) && closed
    {
      closed := true;
    }

    /** After the wait group emptied, cancel and close shut the shell and return. */
    method ReturnFromStop()
      requires (closed || stopping) && waitGroup == {}
      modifies this
      ensures Abs() == Apply(old(Abs()), if old(stopping) then CancelReturns else CloseReturns)
      ensures shellClosed && quiet
    {
      shellClosed, quiet := true, true;
    }

    method StateLocked() returns (r: Condition)
      ensures r.IsOpen? <==> Open(Abs())
      ensures r.IsClosed? <==> closed
    {
      if closed { return IsClosed; }
      if stopping || shellClosed { return IsInvalid; }
      return IsOpen;
    }

    /** A poll: the state, the active request and, for a request id, its page at an offset. */
    method Snapshot(id: string, offset: int) returns (r: PollResult)
      ensures r.Answer? ==> r.active == active && (r.state.IsOpen? <==> Open(Abs())) && (r.state.IsClosed? <==> closed)
      ensures id == "" ==> r.Answer? && r.page.None?
      ensures id != "" && id !in jobs ==> r == Refused(UnknownRequest)
      ensures id != "" && id in jobs && !(0 <= offset <= |jobs[id].output|) ==> r == Refused(OffsetOutside)
      ensures id != "" && id in jobs && 0 <= offset <= |jobs[id].output| ==>
        r.Answer? && r.page == Some(PageOf(jobs[id], offset))
    {
      var state := StateLocked();
      if id == "" { return Answer(state, active, None); }
      if id !in jobs { return Refused(UnknownRequest); }
      var j := jobs[id];
      if offset < 0 || offset > |j.output| { return Refused(OffsetOutside); }
      var end := WorkspacePages.FindPageEnd(j.output, offset, j.done, j.total);
      return Answer(state, active, Some(Page(j.output[offset..end], end, j.phase, j.done, j.code, j.reason, j.total,
                                             |j.output|, j.total > |j.output|, j.dirAfter)));
    }

    /** One step of some handler, command or caller, by the critical section that takes it. */
    method Take(step: Step)
      requires Enabled(Abs(), step)
      modifies this
      ensures Abs() == Perform(old(Abs()), step)
    {
      match step
      case Reserve(id, input) => var _ := ReserveRequest(id, input);
      case ResolveFails(id) => ResolveFailed(id);
      case Decide(id, allowed) => DecideRequest(id, allowed);
      case Emit(id, p) => var _ := Write(id, p);
      case Exit(id, code, failure, dir) => CommandExit(id, code, failure, dir);
      case Depart(id) => LeaveWaitGroup(id);
      case ShellDies => shellClosed := true;
      case Cancel(id) => var _ := BeginCancel(id);
      case CancelReturns => ReturnFromStop();
      case CloseBegins => BeginClose();
      case CloseReturns => ReturnFromStop();
    }

    method TakeAll(steps: seq<Step>)
      requires Inv(Abs()) && Feasible(Abs(), steps)
      modifies this
      ensures Inv(Abs()) && Abs() == Run(old(Abs()), steps)
    {
      for i := 0 to |steps|
        invariant Inv(Abs()) && Feasible(Abs(), steps[i..])
        invariant Run(Abs(), steps[i..]) == Run(old(Abs()), steps)
      {
        assert steps[i..][0] == steps[i] && steps[i..][1..] == steps[i + 1..];
        InvKept(Abs(), steps[i]);
        Take(steps[i]);
      }
    }
  }

  /** Every step is one that its thread can take when its turn comes. */
  ghost predicate Feasible(s: State, steps: seq<Step>)
    decreases |steps|
  {
    steps == [] || (Enabled(s, steps[0]) && Feasible(Apply(s, steps[0]), steps[1..]))
  }

  /** What happens to the workspace between the polls of one waiting controller. */
  function Rounds(s: State, rounds: seq<seq<Step>>): State
    decreases |rounds|
  {
    if rounds == [] then s else Rounds(Run(s, rounds[0]), rounds[1..])
  }

  ghost predicate FeasibleRounds(s: State, rounds: seq<seq<Step>>)
    decreases |rounds|
  {
    rounds == [] || (Feasible(s, rounds[0]) && FeasibleRounds(Run(s, rounds[0]), rounds[1..]))
  }

  /** A recorded request stays recorded, and its output only grows. */
  lemma {:induction false} OutputGrows(s: State, steps: seq<Step>, id: string)
    requires Inv(s) && id in s.jobs
    ensures var t := Run(s, steps); Inv(t) && id in t.jobs && s.jobs[id].output <= t.jobs[id].output
    decreases |steps|
  {
    if steps != [] {
      var u := Apply(s, steps[0]);
      InvKept(s, steps[0]);
      JobsAreSticky(s, steps[0], id);
      StepGrows(s, steps[0], id);
      OutputGrows(u, steps[1..], id);
    }
  }

  lemma StepGrows(s: State, step: Step, id: string)
    requires Inv(s) && id in s.jobs && id in Apply(s, step).jobs
    ensures s.jobs[id].output <= Apply(s, step).jobs[id].output
  {
    if Enabled(s, step) {
      if DecidesFate(step) {
        FateSteps(s, step);
      } else if step.Emit? {
        EmitGrows(s, step.id, step.p, id);
      } else if step.Reserve? {
        assert id != step.id || DoReserve(s, step.id, step.input) == s;
      }
    }
  }

  lemma EmitGrows(s: State, at: string, p: bytes, id: string)
    requires at in s.jobs && at in s.written && id in s.jobs
    ensures s.jobs[id].output <= DoEmit(s, at, p).jobs[id].output
  {}

  lemma {:induction false} RoundsKeepFinished(s: State, rounds: seq<seq<Step>>, id: string)
    requires Inv(s) && id in s.jobs && s.jobs[id].done
    ensures var t := Rounds(s, rounds); id in t.jobs && t.jobs[id] == s.jobs[id]
    decreases |rounds|
  {
    if rounds != [] {
      InvAlways(s, rounds[0]);
      FinishedIsFinal(s, rounds[0], id);
      RoundsKeepFinished(Run(s, rounds[0]), rounds[1..], id);
    }
  }

  /** One poll and the copy of its page; it advances unless it is held mid-character. */
  method PollOnce(device: Device, id: string, next: nat, copied: bytes) returns (more: bytes, last: Page)
    requires id != "" && id in device.jobs && next <= |device.jobs[id].output|
    requires copied == device.jobs[id].output[..next]
    ensures last == PageOf(device.jobs[id], next) && next <= last.nextOffset <= |device.jobs[id].output|
    ensures more == device.jobs[id].output[..last.nextOffset]
    ensures device.jobs[id].done && next < |device.jobs[id].output| ==> last.nextOffset > next
  {
    var r := device.Snapshot(id, next);
    last := r.page.value;
    more := copied + last.output;
    ghost var j := device.jobs[id];
    Glue(j.output, 0, next, last.nextOffset);
    if next < |j.output| {
      WorkspacePages.StallsExactlyMidCharacter(j.output, next, j.done, j.total);
    }
  }

  /** Where the workspace stands between two polls: what is still to happen leads to final. */
  ghost predicate Waiting(s: State, rest: seq<seq<Step>>, final: State, id: string) {
    Inv(s) && id in s.jobs && FeasibleRounds(s, rest) && Rounds(s, rest) == final
  }

  lemma RecordedName(s: State, id: string)
    requires Inv(s) && id in s.jobs
    ensures id != ""
  {
    assert JobThreads(s, id);
  }

  /** What was copied stays the beginning of the output while the others move. */
  method RoundGoesBy(device: Device, id: string, rest: seq<seq<Step>>, next: nat, copied: bytes, ghost final: State)
    requires rest != [] && Waiting(device.Abs(), rest, final, id)
    requires next <= |device.jobs[id].output| && copied == device.jobs[id].output[..next]
    modifies device
    ensures Waiting(device.Abs(), rest[1..], final, id)
    ensures next <= |device.jobs[id].output| && copied == device.jobs[id].output[..next]
  {
    ghost var before := device.jobs[id].output;
    OutputGrows(device.Abs(), rest[0], id);
    device.TakeAll(rest[0]);
    PrefixSlice(before, device.jobs[id].output, 0, next);
  }

  /** A page with everything read of a finished request reports its final record. */
  ghost predicate Complete(final: State, id: string, copied: bytes, last: Page) {
    && id in final.jobs
    && var j := final.jobs[id];
    && copied == j.output && last.nextOffset == |copied|
    && last.done && last.code == j.code && last.reason == j.reason && last.dirAfter == j.dirAfter
    && last.phase == j.phase && last.outputBytes == j.total && last.retainedBytes == |copied|
    && (last.truncated <==> j.total > |copied|)
  }

  lemma Completed(s: State, rest: seq<seq<Step>>, final: State, id: string, next: nat, copied: bytes, last: Page)
    requires Waiting(s, rest, final, id) && next <= |s.jobs[id].output| && last == PageOf(s.jobs[id], next)
    requires last.nextOffset <= |s.jobs[id].output| && copied == s.jobs[id].output[..last.nextOffset]
    requires last.done && last.nextOffset >= last.retainedBytes
    ensures Complete(final, id, copied, last)
  {
    RoundsKeepFinished(s, rest, id);
  }

  /** The controller's wait for a recorded request, wherever that is and whatever all the
      threads of the workspace do between the polls, as long as the request finishes in the
      end. The loop ends, and what it copied out is exactly the output of the request's
      final record, whose verdict it reports. */
  method AwaitWorkspace(device: Device, id: string, rounds: seq<seq<Step>>) returns (copied: bytes, last: Page)
    requires Inv(device.Abs()) && id in device.jobs && FeasibleRounds(device.Abs(), rounds)
    requires var t := Rounds(device.Abs(), rounds); id in t.jobs && t.jobs[id].done
    modifies device
    ensures Complete(Rounds(old(device.Abs()), rounds), id, copied, last)
  {
    ghost var final := Rounds(device.Abs(), rounds);
    copied := [];
    var next: nat, rest := 0, rounds;
    RecordedName(device.Abs(), id);
    while true
      invariant Waiting(device.Abs(), rest, final, id)
      invariant next <= |device.jobs[id].output| && copied == device.jobs[id].output[..next]
      decreases |rest|, |device.jobs[id].output| - next
    {
      ghost var before := next;
      copied, last := PollOnce(device, id, next, copied);
      next := last.nextOffset;
      if last.done && last.nextOffset >= last.retainedBytes {
        Completed(device.Abs(), rest, final, id, before, copied, last);
        return;
      }
      if rest != [] {
        RoundGoesBy(device, id, rest, next, copied, final);
        rest := rest[1..];
      }
    }
  }
}
