/** The stop latch of the OpenCU sessions. A person's stop is announced on a live engine
    connection, at any time; it must outlive that connection and hold every later call
    until the person has answered a fresh approval with yes. Each critical section of
    the service is one step; approvals, engine calls and announcements run in between. */
module OpenCU {
  import opened Common

  type Key = string

  type ConnId = nat

  datatype Session = Session(conn: Option<ConnId>, stopped: bool, active: bool, generation: nat)

  /** A call between its critical sections. direct says that the approval it asks for
      must come from the person directly. */
  datatype Phase = Asking | Answered | Calling(conn: ConnId) | Ending

  datatype Call = Call(key: Key, direct: bool, phase: Phase)

  datatype State = State(
    sessions: map<Key, Session>, shut: bool,
    call: Option<Call>, reserved: bool,        // who holds the desktop: a call, or an update
    timers: set<(Key, nat)>,                   // idle timers armed, by generation
    nextConn: nat, closed: set<ConnId>, owner: map<ConnId, Key>, announced: set<ConnId>,
    owed: set<Key>)                            // stops not yet answered by a fresh yes

  const INITIAL := State(map[], false, None, false, {}, 0, {}, map[], {}, {})

  datatype Outcome = Broken | Stopped | Reply | EngineUnusable

  datatype Step =
    | Begin(key: Key)
    | Answer(yes: bool)
    | GiveUp
    | Dispatch(starts: bool)
    | Finish(outcome: Outcome)
    | End
    | TimerFires(key: Key, generation: nat)
    | Announce(conn: ConnId)
    | Reserve
    | CloseIdle
    | Resume
    | Shut

  /** A stop for this controller that the next call will see. */
  predicate Recorded(s: State, k: Key) {
    k in s.sessions && (s.sessions[k].stopped || (s.sessions[k].conn.Some? && s.sessions[k].conn.value in s.announced))
  }

  function WithSession(s: State, k: Key, e: Session): State {
    s.(sessions := s.sessions[k := e])
  }

  /** closeConn keeps the stop that the connection announced. */
  function CloseConn(e: Session, announced: set<ConnId>): Session {
    e.(conn := None, stopped := e.stopped || (e.conn.Some? && e.conn.value in announced))
  }

  function Conns(sessions: map<Key, Session>): set<ConnId> {
    set k | k in sessions && sessions[k].conn.Some? :: sessions[k].conn.value
  }

  predicate Enabled(s: State, step: Step) {
    match step
    case Begin(_) => s.call.None? && !s.reserved
    case Answer(_) => s.call.Some? && s.call.value.phase.Asking?
    case GiveUp => s.call.Some? && s.call.value.phase.Answered?
    case Dispatch(_) => s.call.Some? && s.call.value.phase.Answered?
    case Finish(_) => s.call.Some? && s.call.value.phase.Calling?
    case End => s.call.Some? && s.call.value.phase.Ending?
    case TimerFires(k, g) => (k, g) in s.timers
    case Announce(c) => c in s.owner && c !in s.closed
    case Reserve => s.call.None? && !s.reserved
    case CloseIdle => s.reserved
    case Resume => s.reserved
    case Shut => true
  }

  function DoBegin(s: State, k: Key): State {
    if s.shut then s
    else
      var e := if k in s.sessions then s.sessions[k] else Session(None, false, false, 0);
      var stopped := e.stopped || (e.conn.Some? && e.conn.value in s.announced);
      WithSession(s, k, e.(active := true, generation := e.generation + 1, stopped := stopped))
        .(call := Some(Call(k, stopped, Asking)))
  }

  function DoAnswer(s: State, yes: bool): State
    requires s.call.Some?
  {
    var c := s.call.value;
    if !yes then s.(call := Some(c.(phase := Ending)))
    else s.(call := Some(c.(phase := Answered)), owed := if c.direct then s.owed - {c.key} else s.owed)
  }

  /** The critical section before the engine is called. */
  function DoDispatch(s: State, starts: bool): State
    requires s.call.Some?
  {
    var c := s.call.value;
    var ended := Some(c.(phase := Ending));
    if s.shut || c.key !in s.sessions then s.(call := ended)
    else
      var e := s.sessions[c.key];
      if !c.direct && e.conn.Some? && e.conn.value in s.announced then
        WithSession(s, c.key, e.(stopped := true)).(call := ended)
      else
        var t := if c.direct then Renewed(s, c.key) else s;
        var conn := t.sessions[c.key].conn;
        if conn.Some? then t.(call := Some(c.(phase := Calling(conn.value))))
        else if !starts then t.(call := ended)
        else Connected(t, c.key).(call := Some(c.(phase := Calling(t.nextConn))))
  }

  /** After a direct approval the old connection goes, and the latch with it. */
  function Renewed(s: State, k: Key): State
    requires k in s.sessions
  {
    var e := s.sessions[k];
    WithSession(s, k, e.(conn := None, stopped := false))
      .(closed := if e.conn.Some? then s.closed + {e.conn.value} else s.closed)
  }

  function Connected(s: State, k: Key): State
    requires k in s.sessions
  {
    WithSession(s, k, s.sessions[k].(conn := Some(s.nextConn)))
      .(nextConn := s.nextConn + 1, owner := s.owner[s.nextConn := k])
  }

  /** The critical section after it. */
  function DoFinish(s: State, outcome: Outcome): State
    requires s.call.Some? && s.call.value.phase.Calling?
  {
    var c := s.call.value;
    var id := c.phase.conn;
    var closes := outcome.Broken? || outcome.EngineUnusable?;
    var t := s.(call := Some(c.(phase := Ending)),
                closed := if closes then s.closed + {id} else s.closed,
                owed := if outcome.Stopped? then s.owed + {c.key} else s.owed);
    if c.key !in s.sessions then t
    else
      var e := s.sessions[c.key];
      WithSession(t, c.key, e.(stopped := e.stopped || outcome.Stopped? || id in s.announced,
                               conn := if closes && e.conn == Some(id) then None else e.conn))
  }

  function DoEnd(s: State): State
    requires s.call.Some?
  {
    var k := s.call.value.key;
    if k !in s.sessions then s.(call := None)
    else WithSession(s, k, s.sessions[k].(active := false))
         .(call := None, timers := s.timers + {(k, s.sessions[k].generation)})
  }

  function DoTimer(s: State, k: Key, g: nat): State {
    var t := s.(timers := s.timers - {(k, g)});
    if k in s.sessions && s.sessions[k].generation == g && !s.sessions[k].active then
      WithSession(t, k, CloseConn(s.sessions[k], s.announced))
        .(closed := if s.sessions[k].conn.Some? then s.closed + {s.sessions[k].conn.value} else s.closed)
    else t
  }

  function Perform(s: State, step: Step): State
    requires Enabled(s, step)
  {
    match step
    case Begin(k) => DoBegin(s, k)
    case Answer(yes) => DoAnswer(s, yes)
    case GiveUp => s.(call := Some(s.call.value.(phase := Ending)))
    case Dispatch(starts) => DoDispatch(s, starts)
    case Finish(outcome) => DoFinish(s, outcome)
    case End => DoEnd(s)
    case TimerFires(k, g) => DoTimer(s, k, g)
    case Announce(c) => s.(announced := s.announced + {c}, owed := s.owed + {s.owner[c]})
    case Reserve => s.(reserved := true)
    case CloseIdle =>
      s.(sessions := map k | k in s.sessions :: CloseConn(s.sessions[k], s.announced),
         closed := s.closed + Conns(s.sessions))
    case Resume => s.(reserved := false)
    case Shut => s.(shut := true, sessions := map[], closed := s.closed + Conns(s.sessions))
  }

  function Apply(s: State, step: Step): State {
    if Enabled(s, step) then Perform(s, step) else s
  }

  function Run(s: State, steps: seq<Step>): State
    decreases |steps|
  {
    if steps == [] then s else Run(Apply(s, steps[0]), steps[1..])
  }

  // ---------- invariant ----------

  /** The connection of a session is open and belongs to its controller. */
  ghost predicate Wired(s: State, k: Key)
    requires k in s.sessions
  {
    var e := s.sessions[k];
    && (e.conn.Some? ==> e.conn.value in s.owner && s.owner[e.conn.value] == k && e.conn.value !in s.closed)
    && (e.active ==> s.call.Some? && s.call.value.key == k)
  }

  /** A call in progress: its session is active, the connection it uses is the
      session's own and open, and without a fresh approval no stop is recorded. */
  ghost predicate InCall(s: State)
    requires s.call.Some?
  {
    var c := s.call.value;
    && (c.phase.Calling? ==> c.phase.conn < s.nextConn)
    && (!s.shut ==>
      && c.key in s.sessions && s.sessions[c.key].active
      && (c.phase.Calling? ==> s.sessions[c.key].conn == Some(c.phase.conn))
      && (!c.direct && (c.phase.Asking? || c.phase.Answered?) ==> !s.sessions[c.key].stopped))
  }

  /** Every open connection is its owner's current one. */
  ghost predicate Wiring(s: State) {
    && (forall k :: k in s.sessions ==> Wired(s, k))
    && (forall id :: id in s.owner ==> id < s.nextConn)
    && (forall id :: id in s.announced || id in s.closed ==> id < s.nextConn)
    && (forall id :: id in s.owner && id !in s.closed ==>
          s.owner[id] in s.sessions && s.sessions[s.owner[id]].conn == Some(id))
  }

  ghost predicate Shape(s: State) {
    && Wiring(s)
    && (s.call.Some? ==> InCall(s) && !s.reserved)
    && (s.shut ==> s.sessions == map[])
  }

  /** Every stop still owed an answer is recorded where the next call looks. */
  ghost predicate StopsKept(s: State) {
    s.shut || forall k :: k in s.owed ==> Recorded(s, k)
  }

  lemma RenewedWiring(s: State, k: Key)
    requires Wiring(s) && k in s.sessions
    ensures Wiring(Renewed(s, k))
  {
    assert Wired(s, k);
    forall x | x in s.sessions ensures Wired(Renewed(s, k), x) {
      assert Wired(s, x);
    }
  }

  lemma ConnectedWiring(s: State, k: Key)
    requires Wiring(s) && k in s.sessions && s.sessions[k].conn.None?
    ensures Wiring(Connected(s, k))
  {
    var t := Connected(s, k);
    assert s.nextConn !in s.closed && s.nextConn !in s.owner;
    forall x | x in s.sessions ensures Wired(t, x) {
      assert Wired(s, x);
    }
    forall id | id in t.owner && id !in t.closed
      ensures t.owner[id] in t.sessions && t.sessions[t.owner[id]].conn == Some(id)
    {
      if id != s.nextConn {
        assert id in s.owner && id !in s.closed;
      }
    }
  }

  lemma DispatchShape(s: State, starts: bool)
    requires Shape(s) && Enabled(s, Dispatch(starts))
    ensures Shape(DoDispatch(s, starts))
  {
    var t := DoDispatch(s, starts);
    var k := s.call.value.key;
    if !s.shut {
      assert Wired(s, k);
      RenewedWiring(s, k);
      var u := if s.call.value.direct then Renewed(s, k) else s;
      if u.sessions[k].conn.None? {
        ConnectedWiring(u, k);
      }
    }
    forall x | x in t.sessions ensures Wired(t, x) {
      assert Wired(s, x);
    }
  }

  lemma FinishShape(s: State, outcome: Outcome)
    requires Shape(s) && Enabled(s, Finish(outcome))
    ensures Shape(DoFinish(s, outcome))
  {
    var t := DoFinish(s, outcome);
    forall k | k in t.sessions ensures Wired(t, k) {
      assert Wired(s, k);
    }
  }

  lemma TimerShape(s: State, k: Key, g: nat)
    requires Shape(s)
    ensures Shape(DoTimer(s, k, g))
  {
    var t := DoTimer(s, k, g);
    forall x | x in t.sessions ensures Wired(t, x) {
      assert Wired(s, x);
    }
  }

  lemma CloseAllShape(s: State)
    requires Shape(s) && s.call.None?
    ensures Shape(Perform(s.(reserved := true), CloseIdle))
    ensures forall id :: id in s.owner ==> id in Perform(s.(reserved := true), CloseIdle).closed
  {
    forall id | id in s.owner && id !in s.closed ensures id in Conns(s.sessions) {
      assert s.sessions[s.owner[id]].conn == Some(id);
    }
    forall k | k in s.sessions ensures Wired(s, k) {}
  }

  lemma ShutShape(s: State)
    requires Shape(s)
    ensures Shape(Perform(s, Shut))
    ensures forall id :: id in s.owner ==> id in Perform(s, Shut).closed
  {
    forall id | id in s.owner && id !in s.closed ensures id in Conns(s.sessions) {
      assert s.sessions[s.owner[id]].conn == Some(id);
    }
    forall k | k in s.sessions ensures Wired(s, k) {}
  }

  lemma BeginShape(s: State, k: Key)
    requires Shape(s) && Enabled(s, Begin(k))
    ensures Shape(DoBegin(s, k))
  {
    var t := DoBegin(s, k);
    forall x | x in t.sessions ensures Wired(t, x) {
      assert x in s.sessions ==> Wired(s, x);
    }
  }

  lemma EndShape(s: State)
    requires Shape(s) && Enabled(s, End)
    ensures Shape(DoEnd(s))
  {
    var t := DoEnd(s);
    forall x | x in t.sessions ensures Wired(t, x) {
      assert Wired(s, x);
    }
  }

  lemma ShapeKept(s: State, step: Step)
    requires Shape(s) && Enabled(s, step)
    ensures Shape(Perform(s, step))
  {
    match step
    case Begin(k) => BeginShape(s, k);
    case Dispatch(starts) => DispatchShape(s, starts);
    case Finish(outcome) => FinishShape(s, outcome);
    case End => EndShape(s);
    case TimerFires(k, g) => TimerShape(s, k, g);
    case CloseIdle => CloseAllShape(s);
    case Shut => ShutShape(s);
    case _ =>
      var t := Perform(s, step);
      forall k | k in t.sessions ensures Wired(t, k) {
        assert Wired(s, k);
      }
  }

  /** The one window in which a stop is lost: the person has answered the direct
      approval with yes and then stops again before the call takes its turn. */
  predicate InWindow(s: State, step: Step) {
    step.Dispatch? && s.call.Some? && !s.shut && s.call.value.direct && s.call.value.key in s.owed
  }

  /** Exactly there, and in no other step, a stop still owed an answer goes unrecorded. */
  lemma StopLostExactly(s: State, step: Step)
    requires Shape(s) && StopsKept(s) && Enabled(s, step)
    ensures StopsKept(Perform(s, step)) <==> !InWindow(s, step)
  {
    var t := Perform(s, step);
    if InWindow(s, step) {
      var k := s.call.value.key;
      assert k in t.owed && !Recorded(t, k);
    } else if !t.shut {
      forall k | k in t.owed ensures Recorded(t, k) {
        if step.Announce? && k == s.owner[step.conn] {
          assert s.sessions[k].conn == Some(step.conn);
        } else if k in s.owed {
          assert Recorded(s, k);
        }
      }
    }
  }

  /** While a stop is owed an answer, the next call asks the person directly ... */
  lemma StopForcesDirectApproval(s: State, k: Key)
    requires StopsKept(s) && k in s.owed && Enabled(s, Begin(k)) && !s.shut
    ensures var t := Perform(s, Begin(k)); t.call.Some? && t.call.value.direct
  {
    assert Recorded(s, k);
  }

  /** ... and no call reaches the engine with a stop recorded, or owed outside the window. */
  lemma NoCallPastAStop(s: State, starts: bool)
    requires Shape(s) && StopsKept(s) && Enabled(s, Dispatch(starts))
    ensures var t := Perform(s, Dispatch(starts));
            t.call.value.phase.Calling? ==>
              && !Recorded(t, s.call.value.key) && t.call.value.phase.conn !in t.closed
              && (!InWindow(s, Dispatch(starts)) ==> s.call.value.key !in s.owed)
  {
    var k := s.call.value.key;
    ShapeKept(s, Dispatch(starts));
    if k in s.owed && !s.shut {
      assert Recorded(s, k);
    }
    var t := Perform(s, Dispatch(starts));
    if t.call.value.phase.Calling? {
      assert Wired(t, k);
    }
  }

  /** The connection a call uses is closed by nobody but the call and the shutdown. */
  lemma CallKeepsItsConnection(s: State, step: Step)
    requires Shape(s) && Enabled(s, step) && s.call.Some? && s.call.value.phase.Calling? && !s.shut
    requires !step.Finish? && !step.Shut?
    ensures var t := Perform(s, step);
            t.call == s.call && s.call.value.phase.conn !in t.closed
  {
    ShapeKept(s, step);
    assert Wired(Perform(s, step), s.call.value.key);
  }

  ghost predicate AvoidsWindow(s: State, steps: seq<Step>)
    decreases |steps|
  {
    steps == [] || (!(Enabled(s, steps[0]) && InWindow(s, steps[0])) && AvoidsWindow(Apply(s, steps[0]), steps[1..]))
  }

  /** Across calls, engine failures, start failures, idle closes, updates and installs,
      a person's stop stays recorded until a direct approval is answered with yes -
      unless it falls into the window. */
  lemma {:induction false} StopsSurvive(s: State, steps: seq<Step>)
    requires Shape(s) && StopsKept(s) && AvoidsWindow(s, steps)
    ensures Shape(Run(s, steps)) && StopsKept(Run(s, steps))
    decreases |steps|
  {
    if steps != [] {
      if Enabled(s, steps[0]) {
        ShapeKept(s, steps[0]);
        StopLostExactly(s, steps[0]);
      }
      StopsSurvive(Apply(s, steps[0]), steps[1..]);
    }
  }

  /** No state of the run loses a stop. */
  ghost predicate KeptThroughout(s: State, steps: seq<Step>)
    decreases |steps|
  {
    StopsKept(s) && (steps == [] || KeptThroughout(Apply(s, steps[0]), steps[1..]))
  }

  /** Along a run every stop stays recorded if and only if no step falls into the window. */
  lemma {:induction false} StopsSurviveExactly(s: State, steps: seq<Step>)
    requires Shape(s) && StopsKept(s)
    ensures KeptThroughout(s, steps) <==> AvoidsWindow(s, steps)
    decreases |steps|
  {
    if steps != [] {
      if Enabled(s, steps[0]) {
        ShapeKept(s, steps[0]);
        StopLostExactly(s, steps[0]);
      }
      if StopsKept(Apply(s, steps[0])) {
        StopsSurviveExactly(Apply(s, steps[0]), steps[1..]);
      }
    }
  }

  /** So it is for every run of a new service. */
  lemma StopsSurviveFromStart(steps: seq<Step>)
    ensures KeptThroughout(INITIAL, steps) <==> AvoidsWindow(INITIAL, steps)
  {
    StopsSurviveExactly(INITIAL, steps);
  }

  /** A run that meets the window: a call opens a connection, the person stops it and
      answers the direct approval of the next call with yes, then stops it again - and
      the approved call goes to a new engine with that second stop recorded nowhere. */
  lemma WindowIsReachable(k: Key)
    ensures
      var idle := Apply(Apply(Apply(Apply(Apply(Apply(INITIAL,
                    Begin(k)), Answer(true)), Dispatch(true)), Announce(0)), Finish(Reply)), End);
      var approved := Apply(Apply(Apply(idle, Begin(k)), Answer(true)), Announce(0));
      var t := Apply(approved, Dispatch(true));
      && InWindow(approved, Dispatch(true))
      && t.call.Some? && t.call.value.phase.Calling? && k in t.owed && !Recorded(t, k)
  {}
}
