/** The link as an object: its critical sections, the whole of Drop and Close, and a
    request from taking the gate to giving it back, with every other goroutine free to
    act wherever the link's lock is not held. */
module WorkspaceLinkObject {
  import opened Common
  import opened WorkspaceLink

  /** The request has come further, and is still the same request. */
  predicate Moved(was: Holder, h: Holder) {
    h.who == was.who && h.key == was.key && h.warm == was.warm && Rank(h.phase) < Rank(was.phase)
  }

  /** The message is out. */
  predicate Out(h: Holder) {
    h.phase.Exchanging? || h.phase.Failing? || h.phase.Stopping?
  }

  function Sends(h: Holder): seq<Sent> {
    if h.phase.Have? && !h.warm then [Sent(h.key, h.phase.conn)] else []
  }

  ghost predicate MovedTo(s: State, t: State)
    requires s.holder.Some?
  {
    && t.holder.Some? && Moved(s.holder.value, t.holder.value) && t.sent == s.sent + Sends(s.holder.value)
    && (Out(t.holder.value) ==> Out(s.holder.value) || Sends(s.holder.value) != [])
  }

  lemma LookMoves(s: State)
    requires s.holder.Some? && s.holder.value.phase.Entered?
    ensures MovedTo(s, DoLook(s))
  {}

  lemma DialMoves(s: State, ok: bool)
    requires s.holder.Some? && (s.holder.value.phase.Dialing? || s.holder.value.phase.Dialed?)
    ensures MovedTo(s, if s.holder.value.phase.Dialing? then DoDial(s, ok) else DoStore(s))
  {}

  lemma AdvanceMoves(s: State)
    requires Enabled(s, Advance)
    ensures MovedTo(s, DoAdvance(s))
  {}

  lemma StepMoves(s: State, ok: bool)
    requires s.holder.Some? && !s.holder.value.phase.Leaving? && !s.holder.value.phase.Stopping?
    ensures MovedTo(s, Perform(s, Next(s, ok)))
  {
    match s.holder.value.phase
    case Entered => LookMoves(s);
    case Dialing(_) => DialMoves(s, ok);
    case Dialed(_, _) => DialMoves(s, ok);
    case Replacing(_, _) =>
    case Rechecking(_) =>
    case Exchanging(_) =>
    case _ => AdvanceMoves(s);
  }

  /** Nothing is sent before the request has its connection, and one message after. */
  ghost predicate OnePacket(before: seq<Sent>, now: seq<Sent>, h: Holder) {
    now == before || (!h.warm && Rank(h.phase) < Rank(Have(0)) && SentOne(before, now, h.key))
  }

  ghost predicate SentOne(before: seq<Sent>, now: seq<Sent>, k: Key) {
    exists c :: now == before + [Sent(k, c)]
  }

  class Link {
    var conn: Option<ConnId>
    var key: Key
    var closed: bool
    var generation: nat
    var holder: Option<Holder>       // the gate, and the request inside it
    var alarm: Alarm
    var closers: nat                 // Close calls between their two sections
    var closing: set<ConnId>         // taken out by Drop, about to be closed
    var dialed: map<ConnId, Key>
    var nextConn: nat
    ghost var dead: set<ConnId>
    ghost var kept: set<ConnId>
    ghost var stores: seq<Stored>
    ghost var cuts: seq<Cut>
    ghost var sent: seq<Sent>

    ghost function Abs(): State
      reads this
    {
      State(conn, key, closed, generation, holder, alarm, closers, closing, dialed, nextConn, dead, kept,
            stores, cuts, sent)
    }

    constructor ()
      ensures Abs() == INITIAL
    {
      conn, key, closed, generation, holder, alarm := None, "", false, 0, None, Off;
      closers, closing, dialed, nextConn, dead, kept := 0, {}, map[], 0, {}, {};
      stores, cuts, sent := [], [], [];
    }

    method DropLocked() returns (c: Option<ConnId>)
      modifies this`generation, this`conn, this`closing
      ensures Abs() == DoDrop(old(Abs())) && c == old(conn)
    {
      generation := generation + 1;
      c := conn;
      conn := None;
      if c.Some? {
        closing := closing + {c.value};
      }
    }

    method CloseDropped(c: ConnId)
      requires c in closing
      modifies this`closing, this`dead
      ensures Abs() == Perform(old(Abs()), WorkspaceLink.CloseDropped(c))
    {
      closing := closing - {c};
      dead := dead + {c};
    }

    /** Drop with nobody else in between: the connection that was stored is closed. */
    method Drop()
      modifies this`generation, this`conn, this`closing, this`dead
      ensures conn.None? && generation == old(generation) + 1
      ensures old(conn).Some? ==> dead == old(dead) + {old(conn.value)}
      ensures old(conn).None? ==> dead == old(dead)
      ensures closing == old(closing) - (if old(conn).Some? then {old(conn.value)} else {})
    {
      var c := DropLocked();
      if c.Some? {
        CloseDropped(c.value);
      }
    }

    method CloseMarkLocked()
      modifies this`closed, this`closers
      ensures Abs() == Perform(old(Abs()), CloseMark)
    {
      closed := true;
      closers := closers + 1;
    }

    method CloseDropLocked() returns (c: Option<ConnId>)
      requires closers > 0
      modifies this`generation, this`conn, this`closing, this`closers
      ensures Abs() == Perform(old(Abs()), CloseDrop)
    {
      c := DropLocked();
      closers := closers - 1;
    }

    /** Moves the request to another place in its code. */
    method Go(phase: Phase)
      requires holder.Some?
      modifies this`holder
      ensures Abs() == At(old(Abs()), phase)
    {
      holder := Some(holder.value.(phase := phase));
    }

    method Enter(who: nat, k: Key, warm: bool)
      requires holder.None?
      modifies this`holder
      ensures Abs() == Perform(old(Abs()), WorkspaceLink.Enter(who, k, warm))
    {
      holder := Some(Holder(who, k, warm, false, Entered));
    }

    method Look()
      requires holder.Some?
      modifies this`holder, this`conn
      ensures Abs() == DoLook(old(Abs()))
    {
      if (holder.value.cancelled && !holder.value.warm) || closed {
        Go(Leaving);
      } else if conn.None? {
        Go(Dialing(generation));
      } else if key != holder.value.key {
        Go(Replacing(conn.value, generation));
        conn := None;
      } else {
        Go(Have(conn.value));
      }
    }

    method CloseOld()
      requires holder.Some? && holder.value.phase.Replacing?
      modifies this`holder, this`dead
      ensures Abs() == Perform(old(Abs()), WorkspaceLink.CloseOld)
    {
      dead := dead + {holder.value.phase.previous};
      Go(Rechecking(holder.value.phase.generation));
    }

    method Recheck()
      requires holder.Some? && holder.value.phase.Rechecking?
      modifies this`holder
      ensures Abs() == DoRecheck(old(Abs()))
    {
      var g := holder.value.phase.generation;
      if closed || g != generation { Go(Leaving); } else { Go(Dialing(g)); }
    }

    method Dial(ok: bool)
      requires holder.Some? && holder.value.phase.Dialing?
      modifies this`holder, this`dialed, this`nextConn
      ensures Abs() == DoDial(old(Abs()), ok)
    {
      if !ok {
        Go(Leaving);
      } else {
        dialed := dialed[nextConn := holder.value.key];
        Go(Dialed(nextConn, holder.value.phase.generation));
        nextConn := nextConn + 1;
      }
    }

    method Store()
      requires holder.Some? && holder.value.phase.Dialed?
      modifies this`holder, this`conn, this`key, this`kept, this`stores
      ensures Abs() == DoStore(old(Abs()))
    {
      var Dialed(c, g) := holder.value.phase;
      if closed || g != generation {
        Go(Overtaken(c));
      } else {
        conn, key := Some(c), holder.value.key;
        kept := kept + {c};
        stores := stores + [Stored(c, key, g, generation, closed)];
        Go(Have(c));
      }
    }

    method Advance()
      requires holder.Some?
      modifies this`holder, this`alarm, this`dead, this`sent
      ensures Abs() == DoAdvance(old(Abs()))
    {
      match holder.value.phase
      case Overtaken(c) =>
        dead := dead + {c};
        Go(Leaving);
      case Failing(c) =>
        dead := dead + {c};
        Go(Stopping(c));
      case Have(c) =>
        if holder.value.warm {
          Go(Leaving);
        } else {
          alarm := if holder.value.cancelled then Firing(holder.value.who, c) else Armed(holder.value.who, c);
          sent := sent + [Sent(holder.value.key, c)];
          Go(Exchanging(c));
        }
      case _ =>
    }

    method Reply(ok: bool)
      requires holder.Some? && holder.value.phase.Exchanging?
      modifies this`holder, this`conn
      ensures Abs() == DoReply(old(Abs()), ok)
    {
      var c := holder.value.phase.conn;
      if ok && !holder.value.cancelled {
        Go(Stopping(c));
      } else {
        if conn == Some(c) {
          conn := None;
        }
        Go(Failing(c));
      }
    }

    method FireAlarm()
      requires alarm.Firing?
      modifies this`alarm, this`cuts
      ensures Abs() == DoFire(old(Abs()))
    {
      cuts := cuts + [Cut(alarm.who, alarm.conn, if holder.Some? then Some(holder.value.who) else None)];
      alarm := Fired;
    }

    method Cancel()
      requires holder.Some?
      modifies this`holder, this`alarm
      ensures Abs() == DoCancel(old(Abs()))
    {
      holder := Some(holder.value.(cancelled := true));
      if alarm.Armed? {
        alarm := Firing(alarm.who, alarm.conn);
      }
    }

    /** stop(), which joins a callback that has begun. */
    method Stop()
      requires holder.Some? && holder.value.phase.Stopping? && Inv(Abs())
      modifies this`holder, this`alarm, this`cuts
      ensures Inv(Abs()) && alarm.Off? && sent == old(sent) && dialed == old(dialed)
      ensures holder.Some? && holder.value == old(holder.value).(phase := Leaving)
    {
      if alarm.Firing? {
        FireInv(Abs());
        FireAlarm();
      }
      InsideInv(Abs(), WorkspaceLink.Stop);
      alarm := Off;
      Go(Leaving);
    }

    /** Drop and Close in other goroutines, one section at a time. */
    method CloseElsewhere(what: nat, c: ConnId)
      requires Inv(Abs())
      modifies this`generation, this`conn, this`closing, this`closers, this`dead, this`closed
      ensures Inv(Abs())
    {
      if what == 0 {
        OutsideInv(Abs(), WorkspaceLink.Drop);
        var _ := DropLocked();
      } else if what == 1 {
        OutsideInv(Abs(), CloseMark);
        CloseMarkLocked();
      } else if what == 2 && closers > 0 {
        OutsideInv(Abs(), CloseDrop);
        var _ := CloseDropLocked();
      } else if c in closing {
        OutsideInv(Abs(), WorkspaceLink.CloseDropped(c));
        CloseDropped(c);
      }
    }

    /** The request's context ends, or the callback that this has started closes the transport. */
    method CancelElsewhere()
      requires holder.Some? && Inv(Abs())
      modifies this`holder, this`alarm, this`cuts
      ensures Inv(Abs())
      ensures holder.Some? && (holder == old(holder) || holder == Some(old(holder.value).(cancelled := true)))
    {
      if alarm.Firing? {
        FireInv(Abs());
        FireAlarm();
      } else {
        OutsideInv(Abs(), WorkspaceLink.Cancel);
        Cancel();
      }
    }

    /** One thing that another goroutine may do now. */
    method StepElsewhere(what: nat, c: ConnId)
      requires holder.Some? && Inv(Abs())
      modifies this
      ensures Inv(Abs()) && sent == old(sent) && dialed == old(dialed) && nextConn == old(nextConn) && kept == old(kept)
      ensures holder.Some? && (holder == old(holder) || holder == Some(old(holder.value).(cancelled := true)))
    {
      if what < 4 {
        CloseElsewhere(what, c);
      } else {
        CancelElsewhere();
      }
    }

    /** Any number of other goroutines' steps, in any order. */
    method Elsewhere()
      requires holder.Some? && Inv(Abs())
      modifies this
      ensures Inv(Abs()) && sent == old(sent) && dialed == old(dialed) && nextConn == old(nextConn) && kept == old(kept)
      ensures holder.Some? && (holder == old(holder) || holder == Some(old(holder.value).(cancelled := true)))
    {
      var n: nat := *;
      while n > 0
        invariant holder.Some? && Inv(Abs())
        invariant sent == old(sent) && dialed == old(dialed) && nextConn == old(nextConn) && kept == old(kept)
        invariant holder == old(holder) || holder == Some(old(holder.value).(cancelled := true))
      {
        var what: nat, c: nat := *, *;
        StepElsewhere(what, c);
        n := n - 1;
      }
    }

    /** What the request does next at its own place in the code. */
    method TakeStep(ok: bool)
      requires holder.Some? && !holder.value.phase.Leaving? && !holder.value.phase.Stopping?
      modifies this
      ensures Abs() == Perform(old(Abs()), Next(old(Abs()), ok))
    {
      match holder.value.phase
      case Entered => Look();
      case Replacing(_, _) => CloseOld();
      case Rechecking(_) => Recheck();
      case Dialing(_) => Dial(ok);
      case Dialed(_, _) => Store();
      case Exchanging(_) => Reply(ok);
      case Overtaken(_) => Advance();
      case Have(_) => Advance();
      case Failing(_) => Advance();
    }

    method StepHere(ok: bool)
      requires holder.Some? && Inv(Abs()) && !holder.value.phase.Leaving?
      modifies this
      ensures Inv(Abs()) && holder.Some? && Moved(old(holder.value), holder.value)
      ensures sent == old(sent) + Sends(old(holder.value))
      ensures Out(holder.value) ==> Out(old(holder.value)) || Sends(old(holder.value)) != []
    {
      if holder.value.phase.Stopping? {
        Stop();
      } else {
        InvKept(Abs(), Next(Abs(), ok));
        StepMoves(Abs(), ok);
        TakeStep(ok);
      }
    }

    /** The others move, and then the request; it may be the reply that comes. */
    method Turn() returns (replied: bool)
      requires holder.Some? && Inv(Abs()) && !holder.value.phase.Leaving?
      modifies this
      ensures Inv(Abs()) && holder.Some? && Moved(old(holder.value), holder.value)
      ensures sent == old(sent) + Sends(old(holder.value))
      ensures Out(holder.value) ==> Out(old(holder.value)) || Sends(old(holder.value)) != []
      ensures replied ==> old(holder.value).phase.Exchanging?
    {
      Elsewhere();
      var ok: bool := *;
      replied := ok && holder.value.phase.Exchanging?;
      StepHere(ok);
    }

    /** A request, or a Warm: it ends, gives the gate back with no callback left behind, and
        has sent at most once, over a connection dialed for its own scope. When it was
        answered it has sent exactly once. */
    method Exchange(who: nat, k: Key, warm: bool) returns (answered: bool)
      requires holder.None? && Inv(Abs())
      modifies this
      ensures Inv(Abs()) && holder.None? && alarm.Off?
      ensures sent == old(sent) ||
              (!warm && exists c :: sent == old(sent) + [Sent(k, c)] && c in dialed && dialed[c] == k)
      ensures answered ==> sent != old(sent)
    {
      InvKept(Abs(), WorkspaceLink.Enter(who, k, warm));
      Enter(who, k, warm);
      answered := false;
      while !holder.value.phase.Leaving?
        invariant holder.Some? && Inv(Abs()) && holder.value.key == k && holder.value.warm == warm
        invariant OnePacket(old(sent), sent, holder.value)
        invariant Out(holder.value) || answered ==> sent != old(sent)
        decreases Rank(holder.value.phase)
      {
        var replied := Turn();
        answered := answered || replied;
      }
      InvKept(Abs(), Leave);
      holder := None;
      if sent != old(sent) {
        var c :| sent == old(sent) + [Sent(k, c)];
        assert Sent(k, c) in sent;
      }
    }
  }
}
