/** One reusable connection shared by the requests of a conversation. A gate lets one
    request through at a time; Drop and Close come from outside at any moment, and a
    request's cancellation closes its transport from a callback. Every critical section,
    every close and every dial is one step. */
module WorkspaceLink {
  import opened Common

  type ConnId = nat
  type Key = string

  /** Where the request that holds the gate is. generation is the one it saw first. */
  datatype Phase =
    | Entered
    | Replacing(previous: ConnId, generation: nat)
    | Rechecking(generation: nat)
    | Dialing(generation: nat)
    | Dialed(conn: ConnId, generation: nat)
    | Overtaken(conn: ConnId)
    | Have(conn: ConnId)
    | Exchanging(conn: ConnId)
    | Failing(conn: ConnId)
    | Stopping(conn: ConnId)
    | Leaving

  datatype Holder = Holder(who: nat, key: Key, warm: bool, cancelled: bool, phase: Phase)

  /** The callback that closes a cancelled request's transport. */
  datatype Alarm = Off | Armed(who: nat, conn: ConnId) | Firing(who: nat, conn: ConnId) | Fired

  datatype Cut = Cut(who: nat, conn: ConnId, holder: Option<nat>)

  datatype Stored = Stored(conn: ConnId, key: Key, began: nat, at: nat, shut: bool)

  datatype Sent = Sent(key: Key, conn: ConnId)

  datatype State = State(
    conn: Option<ConnId>, key: Key, closed: bool, generation: nat,
    holder: Option<Holder>, alarm: Alarm,
    closers: nat,                          // Close calls between their two sections
    closing: set<ConnId>,                  // taken out by Drop, about to be closed
    dialed: map<ConnId, Key>, nextConn: nat, dead: set<ConnId>,
    kept: set<ConnId>,                     // ever stored on the link
    stores: seq<Stored>, cuts: seq<Cut>, sent: seq<Sent>)

  const INITIAL := State(None, "", false, 0, None, Off, 0, {}, map[], 0, {}, {}, [], [], [])

  datatype Step =
    | Enter(who: nat, key: Key, warm: bool)
    | Cancel
    | Fire
    | Look
    | CloseOld
    | Recheck
    | Dial(ok: bool)
    | Store
    | Advance
    | Reply(ok: bool)
    | Stop
    | Leave
    | Drop
    | CloseMark
    | CloseDrop
    | CloseDropped(conn: ConnId)

  function At(s: State, phase: Phase): State
    requires s.holder.Some?
  {
    s.(holder := Some(s.holder.value.(phase := phase)))
  }

  /** Drop's critical section. */
  function DoDrop(s: State): State {
    s.(generation := s.generation + 1, conn := None,
       closing := if s.conn.Some? then s.closing + {s.conn.value} else s.closing)
  }

  /** connFor's first critical section; an exchange whose context is done goes no further. */
  function DoLook(s: State): State
    requires s.holder.Some?
  {
    if (s.holder.value.cancelled && !s.holder.value.warm) || s.closed then At(s, Leaving)
    else if s.conn.None? then At(s, Dialing(s.generation))
    else if s.key != s.holder.value.key then
      At(s, Replacing(s.conn.value, s.generation)).(conn := None)
    else At(s, Have(s.conn.value))
  }

  function DoRecheck(s: State): State
    requires s.holder.Some? && s.holder.value.phase.Rechecking?
  {
    var g := s.holder.value.phase.generation;
    if s.closed || g != s.generation then At(s, Leaving) else At(s, Dialing(g))
  }

  function DoDial(s: State, ok: bool): State
    requires s.holder.Some? && s.holder.value.phase.Dialing?
  {
    if !ok then At(s, Leaving)
    else At(s, Dialed(s.nextConn, s.holder.value.phase.generation))
      .(dialed := s.dialed[s.nextConn := s.holder.value.key], nextConn := s.nextConn + 1)
  }

  function DoStore(s: State): State
    requires s.holder.Some? && s.holder.value.phase.Dialed?
  {
    var Dialed(c, g) := s.holder.value.phase;
    if s.closed || g != s.generation then At(s, Overtaken(c))
    else At(s, Have(c)).(conn := Some(c), key := s.holder.value.key, kept := s.kept + {c},
                         stores := s.stores + [Stored(c, s.holder.value.key, g, s.generation, s.closed)])
  }

  /** The steps that touch nothing but the caller's own connection. */
  function DoAdvance(s: State): State
    requires s.holder.Some?
  {
    var h := s.holder.value;
    match h.phase
    case Overtaken(c) => At(s, Leaving).(dead := s.dead + {c})
    case Failing(c) => At(s, Stopping(c)).(dead := s.dead + {c})
    case Have(c) =>
      if h.warm then At(s, Leaving)
      else At(s, Exchanging(c)).(alarm := if h.cancelled then Firing(h.who, c) else Armed(h.who, c),
                                 sent := s.sent + [Sent(h.key, c)])
    case _ => s
  }

  /** A broken exchange, a rejection or a cancellation takes the connection off the link. */
  function DoReply(s: State, ok: bool): State
    requires s.holder.Some? && s.holder.value.phase.Exchanging?
  {
    var c := s.holder.value.phase.conn;
    if ok && !s.holder.value.cancelled then At(s, Stopping(c))
    else At(s, Failing(c)).(conn := if s.conn == Some(c) then None else s.conn)
  }

  /** stop() either disarms the callback or, when that has begun, waits for its end. */
  function DoStop(s: State): State
    requires s.holder.Some?
  {
    if s.alarm.Firing? then s else At(s, Leaving).(alarm := Off)
  }

  function DoCancel(s: State): State
    requires s.holder.Some?
  {
    s.(holder := Some(s.holder.value.(cancelled := true)),
       alarm := if s.alarm.Armed? then Firing(s.alarm.who, s.alarm.conn) else s.alarm)
  }

  function DoFire(s: State): State
    requires s.alarm.Firing?
  {
    var holder := if s.holder.Some? then Some(s.holder.value.who) else None;
    s.(alarm := Fired, cuts := s.cuts + [Cut(s.alarm.who, s.alarm.conn, holder)])
  }

  predicate Enabled(s: State, step: Step) {
    match step
    case Enter(_, _, _) => s.holder.None?
    case Cancel => s.holder.Some?
    case Fire => s.alarm.Firing?
    case Look => s.holder.Some? && s.holder.value.phase.Entered?
    case CloseOld => s.holder.Some? && s.holder.value.phase.Replacing?
    case Recheck => s.holder.Some? && s.holder.value.phase.Rechecking?
    case Dial(_) => s.holder.Some? && s.holder.value.phase.Dialing?
    case Store => s.holder.Some? && s.holder.value.phase.Dialed?
    case Advance =>
      s.holder.Some? && var p := s.holder.value.phase; p.Overtaken? || p.Have? || p.Failing?
    case Reply(_) => s.holder.Some? && s.holder.value.phase.Exchanging?
    case Stop => s.holder.Some? && s.holder.value.phase.Stopping? && !s.alarm.Firing?
    case Leave => s.holder.Some? && s.holder.value.phase.Leaving?
    case Drop => true
    case CloseMark => true
    case CloseDrop => s.closers > 0
    case CloseDropped(c) => c in s.closing
  }

  function Perform(s: State, step: Step): State
    requires Enabled(s, step)
  {
    match step
    case Enter(who, key, warm) => s.(holder := Some(Holder(who, key, warm, false, Entered)))
    case Cancel => DoCancel(s)
    case Fire => DoFire(s)
    case Look => DoLook(s)
    case CloseOld =>
      var Replacing(c, g) := s.holder.value.phase;
      At(s, Rechecking(g)).(dead := s.dead + {c})
    case Recheck => DoRecheck(s)
    case Dial(ok) => DoDial(s, ok)
    case Store => DoStore(s)
    case Advance => DoAdvance(s)
    case Reply(ok) => DoReply(s, ok)
    case Stop => DoStop(s)
    case Leave => s.(holder := None)
    case Drop => DoDrop(s)
    case CloseMark => s.(closed := true, closers := s.closers + 1)
    case CloseDrop => DoDrop(s).(closers := s.closers - 1)
    case CloseDropped(c) => s.(closing := s.closing - {c}, dead := s.dead + {c})
  }

  function Apply(s: State, step: Step): State {
    if Enabled(s, step) then Perform(s, step) else s
  }

  function Run(s: State, steps: seq<Step>): State
    decreases |steps|
  {
    if steps == [] then s else Run(Apply(s, steps[0]), steps[1..])
  }

  // ---------- invariant ----------

  /** The holder alone answers for the connection: it is to close it, or to store it. */
  predicate InHand(s: State, c: ConnId) {
    s.holder.Some? &&
    match s.holder.value.phase
    case Replacing(previous, _) => previous == c
    case Dialed(conn, _) => conn == c
    case Overtaken(conn) => conn == c
    case Failing(conn) => conn == c
    case _ => false
  }

  predicate Accounted(s: State, c: ConnId) {
    c in s.dead || s.conn == Some(c) || c in s.closing || InHand(s, c)
  }

  /** The connection that the holder uses, or is about to use, was dialed for its scope;
      while it dials, nobody else has put one on the link. */
  predicate OwnScope(s: State) {
    s.holder.Some? ==>
      match s.holder.value.phase
      case Replacing(c, g) => s.conn.None? && g <= s.generation && c in s.dialed && c in s.kept
      case Rechecking(g) => s.conn.None? && g <= s.generation
      case Dialing(g) => s.conn.None? && g <= s.generation
      case Dialed(c, g) =>
        s.conn.None? && g <= s.generation && c in s.dialed && s.dialed[c] == s.holder.value.key && c !in s.kept
      case Overtaken(c) => s.conn.None? && c in s.dialed && c !in s.kept
      case Have(c) => c in s.dialed && s.dialed[c] == s.holder.value.key && c in s.kept
      case Exchanging(c) => c in s.dialed && c in s.kept
      case Failing(c) => c in s.dialed && c in s.kept
      case Stopping(c) => c in s.dialed && c in s.kept
      case _ => true
  }

  /** The callback exists during an exchange only, and belongs to the one that holds the gate. */
  predicate OwnAlarm(s: State) {
    s.alarm.Off? || (s.holder.Some? &&
      var h := s.holder.value;
      && (h.phase.Exchanging? || h.phase.Failing? || h.phase.Stopping?)
      && (s.alarm.Fired? || (s.alarm.who == h.who && s.alarm.conn == h.phase.conn))
      && (s.alarm.Armed? ==> !h.cancelled))
  }

  predicate Link(s: State) {
    && (s.conn.Some? ==> s.conn.value in s.dialed && s.dialed[s.conn.value] == s.key && s.conn.value in s.kept)
    && (s.closed && s.closers == 0 ==> s.conn.None?)
    && s.closing <= s.kept <= s.dialed.Keys
  }

  ghost predicate Accounts(s: State) {
    forall c :: c in s.dialed ==> c < s.nextConn && Accounted(s, c)
  }

  ghost predicate Books(s: State) {
    && (forall x :: x in s.cuts ==> x.holder == Some(x.who))
    && (forall x :: x in s.stores ==> x.began == x.at && !x.shut)
    && (forall x :: x in s.sent ==> x.conn in s.dialed && s.dialed[x.conn] == x.key)
  }

  ghost predicate Inv(s: State) {
    Link(s) && OwnScope(s) && OwnAlarm(s) && Accounts(s) && Books(s)
  }

  /** Steps that dial nothing and lose track of no connection. */
  lemma AccountsKept(s: State, t: State)
    requires Accounts(s) && t.dialed == s.dialed && t.nextConn == s.nextConn
    requires forall c :: c in s.dialed && Accounted(s, c) ==> Accounted(t, c)
    ensures Accounts(t)
  {}

  lemma DialInv(s: State, ok: bool)
    requires Inv(s) && s.holder.Some? && s.holder.value.phase.Dialing?
    ensures Inv(DoDial(s, ok))
  {
    assert s.nextConn !in s.dialed.Keys && s.nextConn !in s.kept;
    var t := DoDial(s, ok);
    assert forall c :: c in s.dialed && Accounted(s, c) ==> Accounted(t, c);
    forall x | x in t.sent ensures x.conn in t.dialed && t.dialed[x.conn] == x.key {
      assert x in s.sent;
    }
  }

  lemma AdvanceInv(s: State)
    requires Inv(s) && Enabled(s, Advance)
    ensures Inv(DoAdvance(s))
  {
    AccountsKept(s, DoAdvance(s));
  }

  lemma StoreInv(s: State)
    requires Inv(s) && Enabled(s, Store)
    ensures Inv(DoStore(s))
  {
    AccountsKept(s, DoStore(s));
  }

  lemma FireInv(s: State)
    requires Inv(s) && Enabled(s, Fire)
    ensures Inv(DoFire(s))
  {
    AccountsKept(s, DoFire(s));
  }

  lemma OutsideInv(s: State, step: Step)
    requires Inv(s) && Enabled(s, step)
    requires step.Drop? || step.CloseMark? || step.CloseDrop? || step.CloseDropped? || step.Cancel?
    ensures Inv(Perform(s, step))
  {
    AccountsKept(s, Perform(s, step));
  }

  lemma LookInv(s: State)
    requires Inv(s) && Enabled(s, Look)
    ensures Inv(DoLook(s))
  {
    AccountsKept(s, DoLook(s));
  }

  lemma ReplyInv(s: State, ok: bool)
    requires Inv(s) && Enabled(s, Reply(ok))
    ensures Inv(DoReply(s, ok))
  {
    AccountsKept(s, DoReply(s, ok));
  }

  lemma InsideInv(s: State, step: Step)
    requires Inv(s) && Enabled(s, step)
    requires step.Enter? || step.CloseOld? || step.Recheck? || step.Stop? || step.Leave?
    ensures Inv(Perform(s, step))
  {
    AccountsKept(s, Perform(s, step));
  }

  lemma InvKept(s: State, step: Step)
    requires Inv(s)
    ensures Inv(Apply(s, step))
  {
    if Enabled(s, step) {
      match step
      case Dial(ok) => DialInv(s, ok);
      case Fire => FireInv(s);
      case Store => StoreInv(s);
      case Advance => AdvanceInv(s);
      case Look => LookInv(s);
      case Reply(ok) => ReplyInv(s, ok);
      case Drop => OutsideInv(s, step);
      case CloseMark => OutsideInv(s, step);
      case CloseDrop => OutsideInv(s, step);
      case CloseDropped(_) => OutsideInv(s, step);
      case Cancel => OutsideInv(s, step);
      case _ => InsideInv(s, step);
    }
  }

  lemma {:induction false} InvAlways(s: State, steps: seq<Step>)
    requires Inv(s)
    ensures Inv(Run(s, steps))
    decreases |steps|
  {
    if steps != [] {
      InvKept(s, steps[0]);
      InvAlways(Apply(s, steps[0]), steps[1..]);
    }
  }

  // ---------- what every interleaving keeps ----------

  /** Requests travel only over connections dialed for their own scope; a stored connection
      is known under the scope it was dialed for; what is stored was overtaken by neither
      Drop nor Close; and a cancellation closes a transport only while the request it
      belongs to still holds the gate. */
  lemma LinkIsSound(steps: seq<Step>)
    ensures var t := Run(INITIAL, steps);
            && (forall x :: x in t.sent ==> x.conn in t.dialed && t.dialed[x.conn] == x.key)
            && (t.conn.Some? ==> t.conn.value in t.dialed && t.dialed[t.conn.value] == t.key)
            && (forall x :: x in t.stores ==> x.began == x.at && !x.shut)
            && (forall x :: x in t.cuts ==> x.holder == Some(x.who))
            && (t.holder.None? ==> t.alarm.Off?)
  {
    InvAlways(INITIAL, steps);
  }

  /** Once Close has returned and no request is under way, nothing is left open, however
      the dials, the cancellations and other Drops fell. */
  lemma CloseLeavesNothingOpen(steps: seq<Step>)
    requires var t := Run(INITIAL, steps); t.closed && t.closers == 0 && t.closing == {} && t.holder.None?
    ensures var t := Run(INITIAL, steps); t.conn.None? && forall c :: c in t.dialed ==> c in t.dead
  {
    InvAlways(INITIAL, steps);
    var t := Run(INITIAL, steps);
    forall c | c in t.dialed ensures c in t.dead {
      assert Accounted(t, c);
    }
  }

  /** A request between its first look at the link and the storing of its connection. */
  predicate Connecting(s: State) {
    s.holder.Some? && var p := s.holder.value.phase; p.Replacing? || p.Rechecking? || p.Dialing? || p.Dialed?
  }

  /** A connecting request that Drop or Close has overtaken, up to where it leaves. */
  predicate Stale(s: State) {
    s.holder.Some? && var p := s.holder.value.phase;
      if Connecting(s) then s.closed || p.generation < s.generation else p.Overtaken? || p.Leaving?
  }

  lemma StaleKept(s: State, step: Step)
    requires Inv(s) && Stale(s) && !step.Leave?
    ensures var t := Apply(s, step); Stale(t) && t.kept == s.kept && t.sent == s.sent
  {}

  /** A dial overtaken by Drop or Close stores nothing and sends nothing; by the time its
      request leaves, every connection that never was stored has been closed. */
  lemma {:induction false} OvertakenDialIsClosed(s: State, steps: seq<Step>)
    requires Inv(s) && Stale(s) && Leave !in steps
    ensures var t := Run(s, steps);
            && Stale(t) && t.kept == s.kept && t.sent == s.sent
            && (t.holder.value.phase.Leaving? ==> forall c :: c in t.dialed && c !in s.kept ==> c in t.dead)
    decreases |steps|
  {
    if steps == [] {
      forall c | c in s.dialed && c !in s.kept && s.holder.value.phase.Leaving? ensures c in s.dead {
        assert Accounted(s, c);
      }
    } else {
      StaleKept(s, steps[0]);
      InvKept(s, steps[0]);
      OvertakenDialIsClosed(Apply(s, steps[0]), steps[1..]);
    }
  }

  /** So does every dial that is under way when Drop or Close comes: however the run goes on,
      nothing of it is stored or sent, and it is closed before its request leaves. */
  lemma DropOvertakesDial(s: State, drop: Step, steps: seq<Step>)
    requires Inv(s) && Connecting(s) && Enabled(s, drop) && (drop.Drop? || drop.CloseMark? || drop.CloseDrop?)
    requires Leave !in steps
    ensures var was := Apply(s, drop);
            var t := Run(was, steps);
            && Stale(t) && t.kept == was.kept && t.sent == was.sent
            && (t.holder.value.phase.Leaving? ==> forall c :: c in t.dialed && c !in was.kept ==> c in t.dead)
  {
    InvKept(s, drop);
    OvertakenDialIsClosed(Apply(s, drop), steps);
  }

  // ---------- the gate is always given back ----------

  function Rank(p: Phase): nat {
    match p
    case Entered => 10
    case Replacing(_, _) => 9
    case Rechecking(_) => 8
    case Dialing(_) => 7
    case Dialed(_, _) => 6
    case Overtaken(_) => 3
    case Have(_) => 5
    case Exchanging(_) => 4
    case Failing(_) => 3
    case Stopping(_) => 2
    case Leaving => 1
  }

  /** How far the request that holds the gate is from giving it back. */
  function Distance(s: State): nat {
    if s.holder.None? then 0 else 2 * Rank(s.holder.value.phase) + (if s.alarm.Firing? then 1 else 0)
  }

  /** The step the request, or the callback it waits for, takes next. */
  function Next(s: State, ok: bool): Step
    requires s.holder.Some?
  {
    match s.holder.value.phase
    case Entered => Look
    case Replacing(_, _) => CloseOld
    case Rechecking(_) => Recheck
    case Dialing(_) => Dial(ok)
    case Dialed(_, _) => Store
    case Exchanging(_) => Reply(ok)
    case Stopping(_) => if s.alarm.Firing? then Fire else Stop
    case Leaving => Leave
    case _ => Advance
  }

  lemma NextAdvances(s: State, ok: bool)
    requires Inv(s) && s.holder.Some?
    ensures Enabled(s, Next(s, ok)) && Distance(Apply(s, Next(s, ok))) < Distance(s)
  {}

  /** Whatever the dial and the peer answer, the gate is free again within 21 steps of the
      request and its callback. */
  lemma {:induction false} GateIsReleased(s: State, answers: seq<bool>) returns (steps: seq<Step>)
    requires Inv(s) && |answers| >= Distance(s)
    ensures |steps| <= Distance(s) <= 21 && Run(s, steps).holder.None?
    decreases Distance(s)
  {
    if s.holder.None? {
      steps := [];
    } else {
      var step := Next(s, answers[0]);
      NextAdvances(s, answers[0]);
      InvKept(s, step);
      var rest := GateIsReleased(Apply(s, step), answers[1..]);
      steps := [step] + rest;
    }
  }
}
