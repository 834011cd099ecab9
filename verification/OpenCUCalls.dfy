/** What becomes of one OpenCU call, over whole runs: whose answer lets it go on, which
    connection it gets, when a connection is kept or closed, and which stops are owed. */
module OpenCUCalls {
  import opened Common
  import opened OpenCU

  // ---------- the approval ----------

  /** The call has come past its approval, and may reach the engine. */
  predicate Going(s: State) {
    s.call.Some? && (s.call.value.phase.Answered? || s.call.value.phase.Calling?)
  }

  predicate Begins(step: Step) {
    step.Begin?
  }

  lemma RefusedStep(s: State, step: Step)
    requires !Going(s) && !(s.call.Some? && s.call.value.phase.Asking?) && !Begins(step)
    ensures var t := Apply(s, step); !Going(t) && !(t.call.Some? && t.call.value.phase.Asking?)
  {}

  lemma {:induction false} RefusedStays(s: State, steps: seq<Step>)
    requires !Going(s) && !(s.call.Some? && s.call.value.phase.Asking?)
    requires forall step :: step in steps ==> !Begins(step)
    ensures !Going(Run(s, steps))
    decreases |steps|
  {
    if steps != [] {
      assert steps[0] in steps && forall step :: step in steps[1..] ==> step in steps;
      RefusedStep(s, steps[0]);
      RefusedStays(Apply(s, steps[0]), steps[1..]);
    }
  }

  /** A no, or a caller who gives up, ends the call: in no state before the next one begins is
      it past its approval, let alone with the engine; and no stop is settled by it. */
  lemma RefusedCallEnds(s: State, no: Step, steps: seq<Step>)
    requires Enabled(s, no) && (no == Answer(false) || no.GiveUp?)
    requires forall step :: step in steps ==> !Begins(step)
    ensures Apply(s, no).owed == s.owed && !Going(Run(Apply(s, no), steps))
  {
    RefusedStays(Apply(s, no), steps);
  }

  /** A yes lets it go on. */
  lemma AcceptedGoesOn(s: State)
    requires Enabled(s, Answer(true))
    ensures var t := Apply(s, Answer(true));
            t.call == Some(s.call.value.(phase := Answered)) && t.sessions == s.sessions && t.closed == s.closed
  {}

  /** Whether the call of the moment has had a yes of its own: a beginning call has none. */
  function Consent(s: State, steps: seq<Step>, yes: bool): bool
    decreases |steps|
  {
    if steps == [] then yes
    else
      var now := if !Enabled(s, steps[0]) then yes
                 else if steps[0].Begin? then false
                 else if steps[0].Answer? then steps[0].yes
                 else yes;
      Consent(Apply(s, steps[0]), steps[1..], now)
  }

  lemma {:induction false} GoingHasConsent(s: State, steps: seq<Step>, yes: bool)
    requires Going(s) ==> yes
    ensures Going(Run(s, steps)) ==> Consent(s, steps, yes)
    decreases |steps|
  {
    if steps != [] {
      var now := if !Enabled(s, steps[0]) then yes
                 else if steps[0].Begin? then false
                 else if steps[0].Answer? then steps[0].yes
                 else yes;
      ConsentStep(s, steps[0], yes, now);
      GoingHasConsent(Apply(s, steps[0]), steps[1..], now);
    }
  }

  lemma ConsentStep(s: State, step: Step, yes: bool, now: bool)
    requires (Going(s) ==> yes) && (Going(s) ==> !Enabled(s, Begin("")))
    requires now == if !Enabled(s, step) then yes else if step.Begin? then false
                    else if step.Answer? then step.yes else yes
    ensures Going(Apply(s, step)) ==> now
  {}

  /** In every run a call goes on, and reaches the engine, only on a yes of its own. */
  lemma NoCallWithoutConsent(steps: seq<Step>)
    ensures Going(Run(INITIAL, steps)) ==> Consent(INITIAL, steps, false)
  {
    GoingHasConsent(INITIAL, steps, false);
  }

  // ---------- the stops that are owed an answer ----------

  /** A stop is announced on one of k's connections, or reported in the reply to its call. */
  predicate StopsNow(s: State, step: Step, k: Key) {
    Enabled(s, step) &&
    ((step.Announce? && s.owner[step.conn] == k) || (step == Finish(Stopped) && s.call.value.key == k))
  }

  /** The person says yes to k's call, asked directly. */
  predicate SettlesNow(s: State, step: Step, k: Key) {
    Enabled(s, step) && step == Answer(true) && s.call.value.direct && s.call.value.key == k
  }

  lemma OwedStep(s: State, step: Step, k: Key)
    ensures k in Apply(s, step).owed <==> StopsNow(s, step, k) || (k in s.owed && !SettlesNow(s, step, k))
  {
    if Enabled(s, step) && step.Dispatch? { DispatchOwes(s, step.starts); }
  }

  lemma DispatchOwes(s: State, starts: bool)
    requires s.call.Some?
    ensures DoDispatch(s, starts).owed == s.owed
  {}

  /** A stop has come in the run, or before it, with no direct yes for that controller since. */
  function Owing(s: State, steps: seq<Step>, k: Key, owed: bool): bool
    decreases |steps|
  {
    if steps == [] then owed
    else Owing(Apply(s, steps[0]), steps[1..], k, StopsNow(s, steps[0], k) || (owed && !SettlesNow(s, steps[0], k)))
  }

  lemma {:induction false} OwedExactly(s: State, steps: seq<Step>, k: Key)
    ensures k in Run(s, steps).owed <==> Owing(s, steps, k, k in s.owed)
    decreases |steps|
  {
    if steps != [] {
      OwedStep(s, steps[0], k);
      OwedExactly(Apply(s, steps[0]), steps[1..], k);
    }
  }

  // ---------- beginning and dispatching ----------

  /** A call that begins asks the person directly exactly when a stop is recorded, and takes
      the session away from any idle timer that was armed before. */
  lemma BeginExactly(s: State, k: Key)
    requires Enabled(s, Begin(k))
    ensures var t := Apply(s, Begin(k));
            if s.shut then t == s
            else
              && t.call == Some(Call(k, Recorded(s, k), Asking)) && k in t.sessions && t.sessions[k].active
              && t.sessions[k].generation == (if k in s.sessions then s.sessions[k].generation else 0) + 1
              && t.sessions[k].conn == (if k in s.sessions then s.sessions[k].conn else None)
              && t.closed == s.closed && (forall x :: x in s.sessions && x != k ==> t.sessions[x] == s.sessions[x])
  {}

  /** The connection that a stop has come on since the call was approved without the person. */
  predicate StoppedMeanwhile(s: State)
    requires s.call.Some?
  {
    var c := s.call.value;
    && !c.direct && c.key in s.sessions && s.sessions[c.key].conn.Some?
    && s.sessions[c.key].conn.value in s.announced
  }

  /** An approved call reaches the engine unless a stop came meanwhile, or a connection that it
      needs does not start. It needs a new one when there is none, or when the person has
      answered a stop; then the old one is closed. */
  lemma DispatchExactly(s: State, starts: bool)
    requires Shape(s) && Enabled(s, Dispatch(starts)) && !s.shut
    ensures var k := s.call.value.key;
            var had := s.sessions[k].conn;
            var needs := s.call.value.direct || had.None?;
            var t := Apply(s, Dispatch(starts));
            && (t.call.value.phase.Calling? <==> !StoppedMeanwhile(s) && (needs ==> starts))
            && (t.call.value.phase.Calling? || t.call.value.phase.Ending?)
            && (t.call.value.phase.Calling? ==>
                  && t.sessions[k].conn == Some(t.call.value.phase.conn)
                  && t.call.value.phase.conn == (if needs then s.nextConn else had.value))
            && t.closed == s.closed + (if s.call.value.direct && had.Some? then {had.value} else {})
            && (StoppedMeanwhile(s) ==> t.sessions[k].stopped && t.sessions[k].conn == had)
            && (forall x :: x in s.sessions && x != k ==> x in t.sessions && t.sessions[x] == s.sessions[x])
  {}

  // ---------- after the engine ----------

  /** A failure, or an engine that cannot be used, closes the connection and takes it from the
      session; any other reply leaves it there. A stop, replied or announced, is recorded. */
  lemma FinishExactly(s: State, outcome: Outcome)
    requires Shape(s) && Enabled(s, Finish(outcome)) && !s.shut
    ensures var k := s.call.value.key;
            var c := s.call.value.phase.conn;
            var t := Apply(s, Finish(outcome));
            && t.call.value.phase.Ending? && k in t.sessions
            && (outcome in {Broken, EngineUnusable} ==> c in t.closed && t.sessions[k].conn == None)
            && (outcome in {Stopped, Reply} ==> t.closed == s.closed && t.sessions[k].conn == Some(c))
            && (t.sessions[k].stopped <==> s.sessions[k].stopped || outcome == Stopped || c in s.announced)
            && (forall x :: x in s.sessions && x != k ==> t.sessions[x] == s.sessions[x])
  {}

  /** The end of a call frees the desktop and arms its idle timer. */
  lemma EndExactly(s: State)
    requires Shape(s) && Enabled(s, End) && !s.shut
    ensures var k := s.call.value.key;
            var t := Apply(s, End);
            && t.call.None? && !t.sessions[k].active && (k, t.sessions[k].generation) in t.timers
            && t.sessions[k].conn == s.sessions[k].conn && t.closed == s.closed
  {}

  /** The next call of a controller uses the connection that the last reply came on. */
  lemma ReplyIsReused(s: State, k: Key, starts: bool)
    requires Shape(s) && Enabled(s, Finish(Reply)) && !s.shut && s.call.value.key == k
    requires s.call.value.phase.conn !in s.announced && !s.sessions[k].stopped
    ensures var u := Apply(Apply(Apply(Apply(Apply(s, Finish(Reply)), End), Begin(k)), Answer(true)), Dispatch(starts));
            u.call.Some? && u.call.value.phase == Calling(s.call.value.phase.conn) && u.nextConn == s.nextConn
  {
    var a := Apply(s, Finish(Reply));
    FinishExactly(s, Reply);
    ShapeKept(s, Finish(Reply));
    EndExactly(a);
    ShapeKept(a, End);
    var b := Apply(a, End);
    BeginExactly(b, k);
    ShapeKept(b, Begin(k));
    var c := Apply(b, Begin(k));
    ShapeKept(c, Answer(true));
    AcceptedGoesOn(c);
    DispatchExactly(Apply(c, Answer(true)), starts);
  }

  /** After a failure it gets a new one, and the broken one is closed. */
  lemma BrokenIsReplaced(s: State, k: Key, outcome: Outcome)
    requires Shape(s) && Enabled(s, Finish(outcome)) && !s.shut && s.call.value.key == k
    requires outcome in {Broken, EngineUnusable}
    ensures var u := Apply(Apply(Apply(Apply(Apply(s, Finish(outcome)), End), Begin(k)), Answer(true)), Dispatch(true));
            && u.call.Some? && u.call.value.phase == Calling(s.nextConn)
            && s.call.value.phase.conn in u.closed && u.sessions[k].conn == Some(s.nextConn)
  {
    var a := Apply(s, Finish(outcome));
    FinishExactly(s, outcome);
    ShapeKept(s, Finish(outcome));
    EndExactly(a);
    ShapeKept(a, End);
    var b := Apply(a, End);
    BeginExactly(b, k);
    ShapeKept(b, Begin(k));
    var c := Apply(b, Begin(k));
    ShapeKept(c, Answer(true));
    DispatchExactly(Apply(c, Answer(true)), true);
    assert a.nextConn == s.nextConn && b.nextConn == s.nextConn && c.nextConn == s.nextConn;
  }

  // ---------- the idle timer ----------

  /** A timer armed before the session was used again. */
  predicate Outdated(s: State, k: Key, g: nat) {
    k in s.sessions ==> g < s.sessions[k].generation
  }

  lemma OutdatedStep(s: State, step: Step, k: Key, g: nat)
    requires Outdated(s, k, g) && (s.shut || k in s.sessions)
    ensures var t := Apply(s, step); Outdated(t, k, g) && (t.shut || k in t.sessions)
  {}

  lemma {:induction false} OutdatedStays(s: State, steps: seq<Step>, k: Key, g: nat)
    requires Outdated(s, k, g) && (s.shut || k in s.sessions) && (s.shut ==> s.sessions == map[])
    ensures Outdated(Run(s, steps), k, g)
    decreases |steps|
  {
    if steps != [] {
      OutdatedStep(s, steps[0], k, g);
      OutdatedStays(Apply(s, steps[0]), steps[1..], k, g);
    }
  }

  /** Until the shutdown every timer in the table is one of a session, and no newer. */
  ghost predicate TimersOld(s: State) {
    forall k, g :: (k, g) in s.timers && !s.shut ==> k in s.sessions && g <= s.sessions[k].generation
  }

  /** Once a session is used again, a timer that was armed before closes nothing, at any later
      moment. */
  lemma UsedSessionOutlivesTimer(past: seq<Step>, k: Key, g: nat, steps: seq<Step>)
    requires var s := Run(INITIAL, past); (k, g) in s.timers && Enabled(s, Begin(k))
    ensures var t := Run(Apply(Run(INITIAL, past), Begin(k)), steps);
            Apply(t, TimerFires(k, g)).sessions == t.sessions && Apply(t, TimerFires(k, g)).closed == t.closed
  {
    TimersAlwaysOld(INITIAL, past);
    var s := Run(INITIAL, past);
    OutdatedStays(Apply(s, Begin(k)), steps, k, g);
  }

  /** A session that nothing uses before its timer fires loses its connection, which is closed,
      and keeps a stop that was announced on it. */
  lemma IdleSessionCloses(s: State, k: Key)
    requires k in s.sessions && !s.sessions[k].active && (k, s.sessions[k].generation) in s.timers
    ensures var t := Apply(s, TimerFires(k, s.sessions[k].generation));
            && t.sessions[k].conn.None? && (s.sessions[k].conn.Some? ==> s.sessions[k].conn.value in t.closed)
            && (t.sessions[k].stopped <==> Recorded(s, k))
            && (forall x :: x in s.sessions && x != k ==> t.sessions[x] == s.sessions[x])
  {}

  /** The session is still there, and no older. */
  predicate NoOlder(s: State, t: State, k: Key)
    requires k in s.sessions
  {
    k in t.sessions && s.sessions[k].generation <= t.sessions[k].generation
  }

  lemma DispatchNoOlder(s: State, starts: bool, k: Key)
    requires k in s.sessions && s.call.Some?
    ensures NoOlder(s, DoDispatch(s, starts), k)
  {}

  lemma FinishNoOlder(s: State, outcome: Outcome, k: Key)
    requires k in s.sessions && Enabled(s, Finish(outcome))
    ensures NoOlder(s, DoFinish(s, outcome), k)
  {}

  lemma TimerNoOlder(s: State, at: Key, g: nat, k: Key)
    requires k in s.sessions
    ensures NoOlder(s, DoTimer(s, at, g), k)
  {}

  lemma BeginNoOlder(s: State, at: Key, k: Key)
    requires k in s.sessions
    ensures NoOlder(s, DoBegin(s, at), k)
  {}

  lemma GenerationGrows(s: State, step: Step, k: Key)
    requires k in s.sessions
    ensures Apply(s, step).shut || NoOlder(s, Apply(s, step), k)
  {
    if Enabled(s, step) {
      match step
      case Begin(at) => BeginNoOlder(s, at, k);
      case Dispatch(starts) => DispatchNoOlder(s, starts, k);
      case Finish(outcome) => FinishNoOlder(s, outcome, k);
      case TimerFires(at, g) => TimerNoOlder(s, at, g, k);
      case _ =>
    }
  }

  lemma NewTimer(s: State, step: Step, k: Key, g: nat)
    requires (k, g) in Apply(s, step).timers && (k, g) !in s.timers
    ensures var t := Apply(s, step); k in t.sessions && g <= t.sessions[k].generation
  {
    assert Enabled(s, step) && step.End?;
  }

  lemma TimersStayOld(s: State, step: Step)
    requires TimersOld(s)
    ensures TimersOld(Apply(s, step))
  {
    var t := Apply(s, step);
    forall k, g | (k, g) in t.timers && !t.shut ensures k in t.sessions && g <= t.sessions[k].generation {
      if (k, g) in s.timers {
        ShutStaysShut(s, step);
        GenerationGrows(s, step, k);
      } else {
        NewTimer(s, step, k, g);
      }
    }
  }

  lemma ShutStaysShut(s: State, step: Step)
    ensures s.shut ==> Apply(s, step).shut
  {}

  /** So it is in every run of a new service. */
  lemma {:induction false} TimersAlwaysOld(s: State, steps: seq<Step>)
    requires Shape(s) && TimersOld(s)
    ensures Shape(Run(s, steps)) && TimersOld(Run(s, steps))
    decreases |steps|
  {
    if steps != [] {
      if Enabled(s, steps[0]) { ShapeKept(s, steps[0]); }
      TimersStayOld(s, steps[0]);
      TimersAlwaysOld(Apply(s, steps[0]), steps[1..]);
    }
  }

  // ---------- updates and the shutdown ----------

  /** While an update or an install holds the desktop no call begins, and closing the idle
      connections closes all there are and forgets no stop. */
  lemma UpdateClosesAll(s: State, k: Key)
    requires Shape(s) && s.reserved && s.call.None?
    ensures !Enabled(s, Begin(k))
    ensures var t := Apply(s, CloseIdle);
            && (forall id :: id in s.owner ==> id in t.closed)
            && (Recorded(t, k) <==> Recorded(s, k))
  {
    CloseAllShape(s);
    assert s.(reserved := true) == s;
  }

  /** From its reservation to its end no call begins. */
  lemma ReservedExcludesCalls(s: State, steps: seq<Step>)
    requires Enabled(s, Reserve) && forall step :: step in steps ==> !step.Resume?
    ensures Run(Apply(s, Reserve), steps).call.None?
  {
    StaysReserved(Apply(s, Reserve), steps);
  }

  lemma {:induction false} StaysReserved(s: State, steps: seq<Step>)
    requires s.reserved && s.call.None? && forall step :: step in steps ==> !step.Resume?
    ensures Run(s, steps).reserved && Run(s, steps).call.None?
    decreases |steps|
  {
    if steps != [] {
      assert steps[0] in steps && forall step :: step in steps[1..] ==> step in steps;
      StaysReserved(Apply(s, steps[0]), steps[1..]);
    }
  }

  /** The shutdown closes every connection; behind it none is opened, and no approved call
      reaches the engine. */
  lemma ShutClosesAll(s: State, steps: seq<Step>)
    requires Shape(s)
    ensures forall id :: id in s.owner ==> id in Apply(s, Shut).closed
    ensures var t := Run(Apply(s, Shut), steps);
            && t.shut && t.nextConn == s.nextConn
            && forall starts :: Enabled(t, Dispatch(starts)) ==> Apply(t, Dispatch(starts)).call.value.phase.Ending?
  {
    ShutShape(s);
    ShutStays(Apply(s, Shut), steps);
  }

  lemma {:induction false} ShutStays(s: State, steps: seq<Step>)
    requires s.shut
    ensures Run(s, steps).shut && Run(s, steps).nextConn == s.nextConn
    decreases |steps|
  {
    if steps != [] {
      ShutStays(Apply(s, steps[0]), steps[1..]);
    }
  }
}
