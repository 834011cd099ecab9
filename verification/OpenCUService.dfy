/** The OpenCU service as an object: its session table and bookkeeping updated in place
    by the critical sections that OpenCU describes as steps. */
module OpenCUService {
  import opened Common
  import opened OpenCU

  class Service {
    var sessions: map<Key, Session>
    var shut: bool
    var call: Option<Call>
    var reserved: bool
    var timers: set<(Key, nat)>
    var nextConn: nat
    var closed: set<ConnId>
    var owner: map<ConnId, Key>
    var announced: set<ConnId>
    ghost var owed: set<Key>

    ghost function Abs(): State
      reads this
    {
      State(sessions, shut, call, reserved, timers, nextConn, closed, owner, announced, owed)
    }

    constructor ()
      ensures Abs() == INITIAL
    {
      sessions, shut, call, reserved, timers := map[], false, None, false, {};
      nextConn, closed, owner, announced, owed := 0, {}, map[], {}, {};
    }

    /** Close on a connection: idempotent, and the last moment it can announce a stop. */
    method CloseConnection(c: Option<ConnId>)
      modifies this`closed
      ensures closed == if c.Some? then old(closed) + {c.value} else old(closed)
    {
      if c.Some? {
        closed := closed + {c.value};
      }
    }

    /** The first critical section of DoOpenCU. */
    method BeginCall(k: Key) returns (ok: bool, direct: bool)
      requires Enabled(Abs(), Begin(k))
      modifies this
      ensures Abs() == DoBegin(old(Abs()), k) && ok == !old(shut)
      ensures ok ==> call == Some(Call(k, direct, Asking)) && direct == Recorded(old(Abs()), k)
    {
      if shut { return false, false; }
      var e := if k in sessions then sessions[k] else Session(None, false, false, 0);
      e := e.(active := true, generation := e.generation + 1);
      if e.conn.Some? && e.conn.value in announced {
        e := e.(stopped := true);
      }
      direct := e.stopped;
      sessions := sessions[k := e];
      call := Some(Call(k, direct, Asking));
      return true, direct;
    }

    method AnswerApproval(yes: bool)
      requires Enabled(Abs(), Answer(yes))
      modifies this
      ensures Abs() == DoAnswer(old(Abs()), yes)
      ensures call == Some(old(call).value.(phase := if yes then Answered else Ending))
      ensures owed == old(owed) - (if yes && old(call).value.direct then {old(call).value.key} else {})
    {
      var c := call.value;
      if !yes {
        call := Some(c.(phase := Ending));
        return;
      }
      if c.direct {
        owed := owed - {c.key};
      }
      call := Some(c.(phase := Answered));
    }

    /** The second critical section: the last check before the engine, the renewal after
        a direct approval, and the start of a connection when there is none. */
    method BeforeEngine(starts: bool) returns (conn: Option<ConnId>)
      requires Enabled(Abs(), Dispatch(starts))
      modifies this
      ensures Abs() == DoDispatch(old(Abs()), starts)
      ensures conn.Some? ==> call.value.phase == Calling(conn.value)
      ensures conn.None? ==> call.value.phase == Ending
      ensures conn.Some? ==> !old(shut) && call.value.key in sessions && sessions[call.value.key].conn == conn
    {
      var c := call.value;
      call := Some(c.(phase := Ending));
      conn := None;
      if shut || c.key !in sessions { return; }
      var e := sessions[c.key];
      if !c.direct && e.conn.Some? && e.conn.value in announced {
        sessions := sessions[c.key := e.(stopped := true)];
        return;
      }
      if c.direct {
        CloseConnection(e.conn);
        e := e.(conn := None, stopped := false);
        sessions := sessions[c.key := e];
      }
      if e.conn.None? {
        if !starts { return; }
        e := e.(conn := Some(nextConn));
        owner := owner[nextConn := c.key];
        nextConn := nextConn + 1;
        sessions := sessions[c.key := e];
      }
      conn := e.conn;
      call := Some(c.(phase := Calling(conn.value)));
    }

    /** The critical section after the engine's reply, or its failure. */
    method AfterEngine(outcome: Outcome)
      requires Enabled(Abs(), Finish(outcome))
      modifies this
      ensures Abs() == DoFinish(old(Abs()), outcome)
      ensures call.Some? && call.value.phase == Ending
      ensures outcome in {Broken, EngineUnusable} ==> old(call).value.phase.conn in closed
      ensures outcome in {Stopped, Reply} ==> closed == old(closed)
    {
      var c := call.value;
      var id := c.phase.conn;
      var closes := outcome.Broken? || outcome.EngineUnusable?;
      if closes {
        CloseConnection(Some(id));
      }
      if outcome.Stopped? {
        owed := owed + {c.key};
      }
      if c.key in sessions {
        var e := sessions[c.key];
        if outcome.Stopped? || id in announced {
          e := e.(stopped := true);
        }
        if closes && e.conn == Some(id) {
          e := e.(conn := None);
        }
        sessions := sessions[c.key := e];
      }
      call := Some(c.(phase := Ending));
    }

    /** The deferred end of the call arms the idle timer for this generation. */
    method EndCall()
      requires Enabled(Abs(), End)
      modifies this
      ensures Abs() == DoEnd(old(Abs())) && call == None
    {
      var k := call.value.key;
      if k in sessions {
        sessions := sessions[k := sessions[k].(active := false)];
        timers := timers + {(k, sessions[k].generation)};
      }
      call := None;
    }

    /** The idle timer closes a connection that nothing has used since it was armed. */
    method IdleTimer(k: Key, g: nat)
      requires Enabled(Abs(), TimerFires(k, g))
      modifies this
      ensures Abs() == DoTimer(old(Abs()), k, g)
    {
      timers := timers - {(k, g)};
      if k in sessions && sessions[k].generation == g && !sessions[k].active {
        SweepOne(k);
      }
    }

    /** closeConn for one session. */
    method SweepOne(k: Key)
      requires k in sessions
      modifies this`sessions, this`closed
      ensures sessions == old(sessions)[k := CloseConn(old(sessions)[k], announced)]
      ensures closed == old(closed) + (if old(sessions)[k].conn.Some? then {old(sessions)[k].conn.value} else {})
    {
      var e := sessions[k];
      if e.conn.Some? {
        CloseConnection(e.conn);
        if e.conn.value in announced {
          e := e.(stopped := true);
        }
        e := e.(conn := None);
      }
      sessions := sessions[k := e];
    }

    /** PauseForUpdate and CloseIdleOpenCU: every idle connection, one after the other. */
    method CloseAllIdle()
      requires reserved
      modifies this`sessions, this`closed
      ensures Abs() == Perform(old(Abs()), CloseIdle)
    {
      ghost var start := sessions;
      ghost var before := closed;
      var left := sessions.Keys;
      assert sessions == Swept(start, left, announced) && closed == before + ConnsOutside(start, left);
      while left != {}
        invariant left <= start.Keys && sessions == Swept(start, left, announced)
        invariant closed == before + ConnsOutside(start, left)
        decreases left
      {
        var k :| k in left;
        SweepStep(start, left, announced, k);
        SweepOne(k);
        left := left - {k};
      }
      assert ConnsOutside(start, {}) == Conns(start);
    }
  }

  /** The table when the sessions in left are still to be closed. */
  ghost function Swept(start: map<Key, Session>, left: set<Key>, announced: set<ConnId>): map<Key, Session> {
    map k | k in start :: if k in left then start[k] else CloseConn(start[k], announced)
  }

  ghost function ConnsOutside(start: map<Key, Session>, left: set<Key>): set<ConnId> {
    set k | k in start && k !in left && start[k].conn.Some? :: start[k].conn.value
  }

  lemma SweepStep(start: map<Key, Session>, left: set<Key>, announced: set<ConnId>, k: Key)
    requires k in left && k in start
    ensures Swept(start, left - {k}, announced) == Swept(start, left, announced)[k := CloseConn(start[k], announced)]
    ensures ConnsOutside(start, left - {k})
         == ConnsOutside(start, left) + (if start[k].conn.Some? then {start[k].conn.value} else {})
  {
    var was, now := ConnsOutside(start, left), ConnsOutside(start, left - {k});
    forall id | id in now && id !in was ensures start[k].conn == Some(id) {
      var x :| x in start && x !in left - {k} && start[x].conn == Some(id);
      assert x == k;
    }
  }
}
