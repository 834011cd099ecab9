/** What a request does with the link: whether it reuses the stored connection or dials, what
    becomes of that connection afterwards, and what a failure, a cancellation and Drop do. */
module WorkspaceLinkUse {
  import opened Common
  import opened WorkspaceLink

  predicate In(s: State, p: Phase) {
    s.holder.Some? && s.holder.value.phase == p
  }

  lemma {:induction false} RunAppend(s: State, a: seq<Step>, b: seq<Step>)
    ensures Run(s, a + b) == Run(Run(s, a), b)
    decreases |a|
  {
    if a == [] {
      assert a + b == b;
    } else {
      assert (a + b)[0] == a[0] && (a + b)[1..] == a[1..] + b;
      RunAppend(Apply(s, a[0]), a[1..], b);
    }
  }

  lemma OneStep(s: State, a: Step)
    ensures Run(s, [a]) == Apply(s, a)
  {
    assert [a][1..] == [];
  }

  // ---------- what the request does at each place ----------

  /** The first look: nothing on a closed link or for a done caller, the stored connection if it
      is of the same scope, and otherwise a dial, behind closing one of another scope. */
  lemma LookExactly(s: State)
    requires Enabled(s, Look)
    ensures var h := s.holder.value;
            var t := Apply(s, Look);
            && t.generation == s.generation && t.sent == s.sent && t.dialed == s.dialed && t.dead == s.dead
            && (if s.closed || (h.cancelled && !h.warm) then In(t, Leaving) && t.conn == s.conn
                else if s.conn.None? then In(t, Dialing(s.generation)) && t.conn.None?
                else if s.key == h.key then In(t, Have(s.conn.value)) && t.conn == s.conn
                else In(t, Replacing(s.conn.value, s.generation)) && t.conn.None?)
  {}

  /** What was dialed is stored, under its own scope, exactly when neither Drop nor Close came. */
  lemma StoreExactly(s: State, c: ConnId, g: nat)
    requires In(s, Dialed(c, g))
    ensures var t := Apply(s, Store);
            if !s.closed && g == s.generation then
              In(t, Have(c)) && t.conn == Some(c) && t.key == s.holder.value.key
            else In(t, Overtaken(c)) && t.conn == s.conn && t.key == s.key
  {}

  /** A dial makes a connection of the request's own scope, or none. */
  lemma DialExactly(s: State, g: nat, ok: bool)
    requires In(s, Dialing(g))
    ensures var t := Apply(s, Dial(ok));
            if ok then
              In(t, Dialed(s.nextConn, g)) && t.dialed == s.dialed[s.nextConn := s.holder.value.key]
              && t.nextConn == s.nextConn + 1
            else In(t, Leaving) && t.dialed == s.dialed && t.nextConn == s.nextConn
  {}

  /** With its connection a request sends one message, and from then on a cancellation closes
      the transport; a warm-up sends none. */
  lemma SendExactly(s: State, c: ConnId)
    requires In(s, Have(c))
    ensures var h := s.holder.value;
            var t := Apply(s, Advance);
            if h.warm then In(t, Leaving) && t.sent == s.sent && t.alarm == s.alarm
            else In(t, Exchanging(c)) && t.sent == s.sent + [Sent(h.key, c)]
                 && t.alarm == (if h.cancelled then Firing(h.who, c) else Armed(h.who, c))
  {}

  /** A good reply leaves the connection on the link; a failure, a rejection or a caller who is
      done takes it off. */
  lemma ReplyExactly(s: State, c: ConnId, ok: bool)
    requires In(s, Exchanging(c))
    ensures var t := Apply(s, Reply(ok));
            if ok && !s.holder.value.cancelled then In(t, Stopping(c)) && t.conn == s.conn
            else In(t, Failing(c)) && t.conn == if s.conn == Some(c) then None else s.conn
  {}

  /** The callback closes the transport of the request whose caller is done. */
  lemma CancelExactly(s: State, c: ConnId)
    requires In(s, Exchanging(c)) && s.alarm == Armed(s.holder.value.who, c)
    ensures var who := s.holder.value.who;
            var t := Apply(Apply(s, Cancel), Fire);
            t.holder.value.cancelled && t.cuts == s.cuts + [Cut(who, c, Some(who))] && t.alarm == Fired
  {}

  /** Drop takes the stored connection off the link and marks it for closing, and the close
      follows; what is under way is overtaken. */
  lemma DropExactly(s: State)
    ensures var t := Apply(s, Drop);
            && t.generation == s.generation + 1 && t.conn.None? && t.closed == s.closed
            && t.closing == s.closing + (if s.conn.Some? then {s.conn.value} else {})
            && (s.conn.Some? ==> s.conn.value in Apply(t, CloseDropped(s.conn.value)).dead)
  {}

  /** Close is for good, and ends with a Drop. */
  lemma CloseExactly(s: State, steps: seq<Step>)
    ensures Apply(s, CloseMark).closed && Run(Apply(s, CloseMark), steps).closed
    ensures Enabled(Apply(s, CloseMark), CloseDrop)
    ensures s.closers > 0 ==>
      var t := Apply(s, CloseDrop); t.conn.None? && t.generation == s.generation + 1 && t.closers == s.closers - 1
  {
    ClosedStays(Apply(s, CloseMark), steps);
  }

  lemma {:induction false} ClosedStays(s: State, steps: seq<Step>)
    requires s.closed
    ensures Run(s, steps).closed
    decreases |steps|
  {
    if steps != [] {
      ClosedStays(Apply(s, steps[0]), steps[1..]);
    }
  }

  // ---------- whole requests, with nobody in between ----------

  /** The steps of a request up to its message. */
  function Path(s: State, who: nat, k: Key): seq<Step> {
    [Enter(who, k, false), Look]
    + (if s.conn.None? then [Dial(true), Store] else if s.key == k then [] else [CloseOld, Recheck, Dial(true), Store])
    + [Advance]
  }

  lemma Enters(s: State, who: nat, k: Key)
    requires s.holder.None?
    ensures var t := Run(s, [Enter(who, k, false), Look]);
            t == Apply(Apply(s, Enter(who, k, false)), Look)
  {
    assert [Enter(who, k, false), Look][1..] == [Look];
    LookExactly(Apply(s, Enter(who, k, false)));
    OneStep(Apply(s, Enter(who, k, false)), Look);
  }

  lemma DialsAndStores(s: State, g: nat)
    requires In(s, Dialing(g)) && !s.closed && g == s.generation
    ensures var t := Run(s, [Dial(true), Store]);
            && In(t, Have(s.nextConn)) && t.conn == Some(s.nextConn) && t.key == s.holder.value.key
            && t.sent == s.sent && t.dead == s.dead && t.alarm == s.alarm
            && t.dialed == s.dialed[s.nextConn := s.holder.value.key]
            && t.holder.value.key == s.holder.value.key && !t.holder.value.warm == !s.holder.value.warm
  {
    assert [Dial(true), Store][1..] == [Store];
    DialExactly(s, g, true);
    StoreExactly(Apply(s, Dial(true)), s.nextConn, g);
    OneStep(Apply(s, Dial(true)), Store);
  }

  /** With a connection of its scope on the link a request dials nothing and uses that one. */
  lemma ReusesConnection(s: State, who: nat, k: Key)
    requires s.holder.None? && !s.closed && s.conn.Some? && s.key == k
    ensures var t := Run(s, Path(s, who, k));
            && In(t, Exchanging(s.conn.value)) && t.sent == s.sent + [Sent(k, s.conn.value)]
            && t.dialed == s.dialed && t.conn == s.conn && t.dead == s.dead
  {
    Enters(s, who, k);
    var head: seq<Step> := [Enter(who, k, false), Look];
    assert Path(s, who, k) == head + [Advance];
    RunAppend(s, head, [Advance]);
    SendExactly(Run(s, head), s.conn.value);
    OneStep(Run(s, head), Advance);
  }

  /** Without one it dials, stores what it dialed under its scope, and sends on that. */
  lemma DialsWhenThereIsNone(s: State, who: nat, k: Key)
    requires s.holder.None? && !s.closed && s.conn.None?
    ensures var t := Run(s, Path(s, who, k));
            && In(t, Exchanging(s.nextConn)) && t.sent == s.sent + [Sent(k, s.nextConn)]
            && t.conn == Some(s.nextConn) && t.key == k && t.dialed == s.dialed[s.nextConn := k]
  {
    Enters(s, who, k);
    var head: seq<Step> := [Enter(who, k, false), Look];
    var dial: seq<Step> := [Dial(true), Store];
    assert Path(s, who, k) == head + (dial + [Advance]);
    RunAppend(s, head, dial + [Advance]);
    var u := Run(s, head);
    RunAppend(u, dial, [Advance]);
    DialsAndStores(u, s.generation);
    OneStep(Run(u, dial), Advance);
  }

  lemma ClosesOldOne(s: State, c: ConnId, g: nat)
    requires In(s, Replacing(c, g)) && !s.closed && g == s.generation
    ensures var t := Run(s, [CloseOld, Recheck]);
            && In(t, Dialing(g)) && t.dead == s.dead + {c} && t.conn == s.conn && t.closed == s.closed
            && t.generation == s.generation && t.nextConn == s.nextConn && t.sent == s.sent
            && t.holder.value.key == s.holder.value.key && t.holder.value.warm == s.holder.value.warm
  {
    assert [CloseOld, Recheck][1..] == [Recheck];
    OneStep(Apply(s, CloseOld), Recheck);
  }

  /** A connection of another scope is closed first. */
  lemma ReplacesOtherScope(s: State, who: nat, k: Key)
    requires s.holder.None? && !s.closed && s.conn.Some? && s.key != k
    ensures var t := Run(s, Path(s, who, k));
            && In(t, Exchanging(s.nextConn)) && t.sent == s.sent + [Sent(k, s.nextConn)]
            && t.conn == Some(s.nextConn) && t.key == k && t.dead == s.dead + {s.conn.value}
  {
    Enters(s, who, k);
    var head: seq<Step> := [Enter(who, k, false), Look];
    var change: seq<Step> := [CloseOld, Recheck];
    var dial: seq<Step> := [Dial(true), Store];
    assert Path(s, who, k) == head + (change + (dial + [Advance]));
    RunAppend(s, head, change + (dial + [Advance]));
    var u := Run(s, head);
    RunAppend(u, change, dial + [Advance]);
    ClosesOldOne(u, s.conn.value, s.generation);
    var v := Run(u, change);
    RunAppend(v, dial, [Advance]);
    DialsAndStores(v, s.generation);
    OneStep(Run(v, dial), Advance);
  }

  /** A good reply ends the request and leaves its connection for the next one. */
  lemma SuccessKeepsConnection(s: State, c: ConnId)
    requires In(s, Exchanging(c)) && !s.holder.value.cancelled && s.conn == Some(c)
    requires s.alarm == Armed(s.holder.value.who, c)
    ensures var t := Apply(Apply(Apply(s, Reply(true)), Stop), Leave);
            t.holder.None? && t.alarm.Off? && t.conn == Some(c) && t.key == s.key && t.dead == s.dead
  {
    ReplyExactly(s, c, true);
  }

  // ---------- a connection that failed ----------

  /** Nobody will get the connection from the link, or has it to send on. */
  predicate Forgotten(s: State, c: ConnId) {
    c < s.nextConn && s.conn != Some(c)
    && (s.holder.Some? ==>
          var p := s.holder.value.phase;
          p.Dialed? || p.Have? || p.Exchanging? ==> p.conn != c)
  }

  lemma ForgottenStep(s: State, step: Step, c: ConnId)
    requires Forgotten(s, c)
    ensures var t := Apply(s, step); Forgotten(t, c) && (t.sent == s.sent || SentElsewhere(s.sent, t.sent, c))
  {}

  ghost predicate SentElsewhere(before: seq<Sent>, now: seq<Sent>, c: ConnId) {
    |now| == |before| + 1 && now[..|before|] == before && now[|before|].conn != c
  }

  ghost predicate NeverOn(before: seq<Sent>, now: seq<Sent>, c: ConnId) {
    before <= now && forall i :: |before| <= i < |now| ==> now[i].conn != c
  }

  lemma {:induction false} ForgottenStays(s: State, steps: seq<Step>, c: ConnId)
    requires Forgotten(s, c)
    ensures var t := Run(s, steps); t.conn != Some(c) && NeverOn(s.sent, t.sent, c)
    decreases |steps|
  {
    if steps != [] {
      ForgottenStep(s, steps[0], c);
      ForgottenStays(Apply(s, steps[0]), steps[1..], c);
    }
  }

  /** After a failed exchange, a rejection or a cancellation the connection is never again on the
      link, and nothing is sent on it any more, however the run goes on. */
  lemma FailedIsForgotten(s: State, c: ConnId, ok: bool, steps: seq<Step>)
    requires Inv(s) && In(s, Exchanging(c)) && (!ok || s.holder.value.cancelled)
    ensures var t := Run(Apply(s, Reply(ok)), steps); t.conn != Some(c) && NeverOn(s.sent, t.sent, c)
  {
    assert c < s.nextConn;
    ForgottenStays(Apply(s, Reply(ok)), steps, c);
  }

  /** The connection is being closed by the request that failed on it, or is closed. */
  predicate Doomed(s: State, c: ConnId) {
    In(s, Failing(c)) || c in s.dead
  }

  lemma {:induction false} DoomedStays(s: State, steps: seq<Step>, c: ConnId)
    requires Doomed(s, c)
    ensures Doomed(Run(s, steps), c)
    decreases |steps|
  {
    if steps != [] {
      DoomedStep(s, steps[0], c);
      DoomedStays(Apply(s, steps[0]), steps[1..], c);
    }
  }

  lemma DoomedStep(s: State, step: Step, c: ConnId)
    requires Doomed(s, c)
    ensures Doomed(Apply(s, step), c)
  {}

  /** And it is closed before that request leaves. */
  lemma FailedIsClosed(s: State, c: ConnId, ok: bool, steps: seq<Step>)
    requires In(s, Exchanging(c)) && (!ok || s.holder.value.cancelled)
    ensures var t := Run(Apply(s, Reply(ok)), steps); !In(t, Failing(c)) ==> c in t.dead
  {
    DoomedStays(Apply(s, Reply(ok)), steps, c);
  }
}
