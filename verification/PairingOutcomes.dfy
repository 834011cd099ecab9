/** What a dial, a decision, a collection and a notification come to, told from the tables
    before them, and what follows from that over whole runs. */
module PairingOutcomes {
  import opened Common
  import opened Pairing

  // ---------- a dial ----------

  /** The requests that still wait for the owner. */
  function Waiting(s: State): set<Fp> {
    set fp | fp in s.pairs && Live(s, fp) && !s.entries[s.pairs[fp]].decided
  }

  /** The other controllers' requests are untouched, but for those that have expired. */
  ghost predicate OthersPruned(s: State, t: State, fp: Fp) {
    forall x :: x != fp ==> (x in t.pairs <==> Live(s, x)) && (x in t.pairs ==> t.pairs[x] == s.pairs[x])
  }

  /** A dial that finds a decided request gets its verdict, and takes it out of the table. */
  lemma DialCollects(s: State, fp: Fp, waits: bool, hook: bool)
    requires Live(s, fp) && s.entries[s.pairs[fp]].decided
    ensures var t := Apply(s, Dial(fp, waits, hook));
            var id := s.pairs[fp];
            && t.verdicts == s.verdicts + [Verdict(s.nextDial, fp, id, s.entries[id].trust, s.now, true)]
            && fp !in t.pairs && OthersPruned(s, t, fp) && t.entries == s.entries && t.asks == s.asks
            && t.nextDial == s.nextDial + 1 && t.refused == s.refused && t.notified == s.notified
  {}

  lemma WaitingIsUndecided(s: State)
    ensures Undecided(Prune(s)) == Waiting(s)
  {}

  /** A new controller is refused exactly while 16 requests wait, and leaves no request. */
  lemma DialRefused(s: State, fp: Fp, waits: bool, hook: bool)
    requires !Live(s, fp)
    ensures var t := Apply(s, Dial(fp, waits, hook));
            if |Waiting(s)| >= 16 then
              && t.refused == s.refused + [s.nextDial] && fp !in t.pairs && OthersPruned(s, t, fp)
              && t.entries == s.entries && t.asks == s.asks && t.verdicts == s.verdicts
              && t.nextDial == s.nextDial + 1 && t.waiting == s.waiting
            else t.refused == s.refused && fp in t.pairs
  {
    WaitingIsUndecided(s);
  }

  /** The entry a dial asks for: the one that already waits, or a fresh one. */
  function AskedEntry(s: State, fp: Fp): nat {
    if Live(s, fp) then s.pairs[fp] else s.nextEntry
  }

  /** Any other dial leaves one request, that lives for five minutes from now, undecided; it
      waits for it if it may and somebody is there to answer. */
  lemma DialAsks(s: State, fp: Fp, waits: bool, hook: bool)
    requires Live(s, fp) ==> !s.entries[s.pairs[fp]].decided
    requires !Live(s, fp) ==> |Waiting(s)| < 16
    ensures var t := Apply(s, Dial(fp, waits, hook));
            var id := AskedEntry(s, fp);
            && t.asks == s.asks + [Ask(s.nextDial, fp, id, s.now)] && t.verdicts == s.verdicts
            && fp in t.pairs && t.pairs[fp] == id && id in t.entries && OthersPruned(s, t, fp)
            && !t.entries[id].decided && t.entries[id].expires == s.now + 5 * 60
            && t.nextDial == s.nextDial + 1 && t.refused == s.refused
            && t.waiting == if waits && s.frontends > 0 then s.waiting[s.nextDial := id] else s.waiting
  {
    WaitingIsUndecided(s);
  }

  // ---------- a decision ----------

  /** The owner's answer counts exactly for a live request that nobody has answered. */
  lemma DecisionCounts(s: State, fp: Fp, trust: bool)
    ensures DoDecide(s, fp, trust).1 <==> Live(s, fp) && !s.entries[s.pairs[fp]].decided
    ensures !DoDecide(s, fp, trust).1 ==>
      var t := Apply(s, Decide(fp, trust));
      t.decisions == s.decisions && t.entries == s.entries && t.verdicts == s.verdicts && t.waiting == s.waiting
  {}

  /** Then it is on record; a yes stays for five minutes, a no takes the request away. */
  lemma DecisionRecorded(s: State, fp: Fp, trust: bool)
    requires Live(s, fp) && !s.entries[s.pairs[fp]].decided
    ensures var t := Apply(s, Decide(fp, trust));
            var id := s.pairs[fp];
            && t.decisions == s.decisions + [Decision(id, fp, trust, s.now)]
            && id in t.entries && t.entries[id].decided && t.entries[id].trust == trust
            && (trust ==> fp in t.pairs && t.pairs[fp] == id && t.entries[id].expires == s.now + 5 * 60)
            && (!trust ==> fp !in t.pairs) && OthersPruned(s, t, fp)
            && t.verdicts == s.verdicts && t.waiting == s.waiting
            && (forall x :: x in s.entries && x != id ==> x in t.entries && t.entries[x] == s.entries[x])
  {}

  // ---------- collecting ----------

  /** The entry's decided request is there for this dial. */
  predicate Ready(s: State, dial: nat) {
    dial in s.waiting && s.waiting[dial] in s.entries && s.entries[s.waiting[dial]].decided
  }

  /** A waiting dial that collects gets its own entry's verdict, once, and that entry leaves the
      table; the other requests stay. */
  lemma CollectExactly(s: State, dial: nat)
    requires Ready(s, dial) && forall fp :: fp in s.pairs ==> Listed(s, fp)
    ensures var t := Apply(s, Collect(dial));
            var id := s.waiting[dial];
            var e := s.entries[id];
            && t.verdicts == s.verdicts + [Verdict(dial, e.fp, id, e.trust, s.now, false)]
            && (forall fp :: fp in t.pairs ==> t.pairs[fp] != id)
            && (forall fp :: fp in s.pairs && s.pairs[fp] != id ==> fp in t.pairs && t.pairs[fp] == s.pairs[fp])
            && t.waiting == s.waiting - {dial} && t.entries == s.entries && t.nextDial == s.nextDial
  {
    assert forall fp :: fp in s.pairs ==> Listed(s, fp) && s.entries[s.pairs[fp]].fp == fp;
  }

  lemma CollectedIsSpent(s: State, dial: nat)
    requires Inv(s) && Ready(s, dial)
    ensures var t := Apply(s, Collect(dial)); Inv(t) && Spent(t, s.waiting[dial], t.nextDial)
  {
    var t := Apply(s, Collect(dial));
    var id := s.waiting[dial];
    InvKept(s, Collect(dial));
    CollectExactly(s, dial);
    assert EntryOk(s, id);
    forall v | v in t.verdicts && v.entry == id ensures v.dial < t.nextDial { assert VerdictOk(t, v); }
    forall d | d in t.waiting && t.waiting[d] == id ensures d < t.nextDial { assert d in s.waiting; }
  }

  /** After it no dial that starts later gets a verdict of that entry. */
  lemma CollectedForGood(s: State, dial: nat, future: seq<Step>, v: Verdict)
    requires Inv(s) && Ready(s, dial)
    requires v in Run(Apply(s, Collect(dial)), future).verdicts && v.entry == s.waiting[dial]
    ensures v.dial < s.nextDial
  {
    CollectedIsSpent(s, dial);
    CollectExactly(s, dial);
    SpentStays(Apply(s, Collect(dial)), future, s.waiting[dial], s.nextDial);
  }

  // ---------- a dial that waits ----------

  /** No further verdict goes to this dial. */
  ghost predicate NothingFor(before: seq<Verdict>, now: seq<Verdict>, dial: nat) {
    forall v :: v in now && v.dial == dial ==> v in before
  }

  lemma NotWaitingStep(s: State, step: Step, dial: nat)
    requires dial !in s.waiting && dial < s.nextDial
    ensures var t := Apply(s, step);
            dial !in t.waiting && dial < t.nextDial && NothingFor(s.verdicts, t.verdicts, dial)
  {
    if step.Dial? {
      DialIsOne(Prune(s), step.fp, step.waits, step.hook);
      DialGivesOwn(Prune(s), Apply(s, step), dial);
    }
  }

  /** The dials and verdicts, behind a dial that is the one number given. */
  predicate DialTo(s: State, t: State) {
    && t.nextDial == s.nextDial + 1
    && (t.waiting == s.waiting
        || (s.nextDial in t.waiting && t.waiting == s.waiting[s.nextDial := t.waiting[s.nextDial]]))
    && (t.verdicts == s.verdicts || OneMore(s, t))
  }

  predicate OneMore(s: State, t: State) {
    |t.verdicts| == |s.verdicts| + 1 && t.verdicts[..|s.verdicts|] == s.verdicts
    && t.verdicts[|s.verdicts|].dial == s.nextDial
  }

  lemma RegisterTouches(s: State, fp: Fp, hook: bool)
    ensures var t := DoRegister(s, fp, hook);
            fp in t.pairs && t.nextDial == s.nextDial && t.waiting == s.waiting && t.verdicts == s.verdicts
  {}

  lemma WaitTo(s: State, t: State, fp: Fp, waits: bool)
    requires fp in t.pairs && t.nextDial == s.nextDial && t.waiting == s.waiting && t.verdicts == s.verdicts
    ensures DialTo(s, DoWait(t, fp, waits))
  {}

  lemma ArrivalTo(s: State, fp: Fp)
    requires fp in s.pairs && s.pairs[fp] in s.entries
    ensures DialTo(s, DoCollectOnArrival(s, fp))
  {}

  lemma DialIsOne(s: State, fp: Fp, waits: bool, hook: bool)
    ensures DialTo(s, DialOn(s, fp, waits, hook))
  {
    if fp in s.pairs && s.pairs[fp] in s.entries && s.entries[s.pairs[fp]].decided {
      ArrivalTo(s, fp);
    } else if !(fp !in s.pairs && |Undecided(s)| >= MAX_PENDING) {
      RegisterTouches(s, fp, hook);
      WaitTo(s, DoRegister(s, fp, hook), fp, waits);
    }
  }

  lemma DialGivesOwn(s: State, t: State, dial: nat)
    requires dial !in s.waiting && dial < s.nextDial && DialTo(s, t)
    ensures dial !in t.waiting && dial < t.nextDial && NothingFor(s.verdicts, t.verdicts, dial)
  {
    forall v | v in t.verdicts && v.dial == dial ensures v in s.verdicts {
      if t.verdicts != s.verdicts {
        var k :| 0 <= k < |t.verdicts| && t.verdicts[k] == v;
        assert k < |s.verdicts| && t.verdicts[..|s.verdicts|][k] == v;
      }
    }
  }

  lemma {:induction false} NotWaitingStays(s: State, steps: seq<Step>, dial: nat)
    requires dial !in s.waiting && dial < s.nextDial
    ensures NothingFor(s.verdicts, Run(s, steps).verdicts, dial)
    decreases |steps|
  {
    if steps != [] {
      NotWaitingStep(s, steps[0], dial);
      NotWaitingStays(Apply(s, steps[0]), steps[1..], dial);
    }
  }

  /** A dial that has timed out, or has collected, gets nothing more in any continuation. */
  lemma DoneWaiting(s: State, dial: nat, done: Step, steps: seq<Step>)
    requires Inv(s) && dial in s.waiting && (done == TimeOut(dial) || (done == Collect(dial) && Ready(s, dial)))
    ensures var t := Apply(s, done); NothingFor(t.verdicts, Run(t, steps).verdicts, dial)
    ensures done.TimeOut? ==> Apply(s, done).verdicts == s.verdicts
  {
    if done.Collect? { CollectExactly(s, dial); }
    NotWaitingStays(Apply(s, done), steps, dial);
  }

  /** The verdict a dial waits for is given, and will not change. */
  predicate Awaits(s: State, dial: nat, id: nat, trust: bool) {
    && dial in s.waiting && s.waiting[dial] == id && dial < s.nextDial
    && id in s.entries && s.entries[id].decided && s.entries[id].trust == trust && id < s.nextEntry
  }

  /** The entry stays, and with it whose it is and how it was decided. */
  predicate Keeps(s: State, t: State, id: nat)
    requires id in s.entries
  {
    && id in t.entries && id < t.nextEntry && t.entries[id].fp == s.entries[id].fp
    && (s.entries[id].decided ==> t.entries[id].decided && t.entries[id].trust == s.entries[id].trust)
  }

  lemma DialKeeps(s: State, fp: Fp, waits: bool, hook: bool, id: nat)
    requires id in s.entries && id < s.nextEntry
    ensures Keeps(s, DialOn(s, fp, waits, hook), id)
  {}

  lemma DecideKeeps(s: State, fp: Fp, trust: bool, id: nat)
    requires id in s.entries && id < s.nextEntry
    ensures Keeps(s, DecideOn(s, fp, trust).0, id)
  {}

  lemma EntryStep(s: State, step: Step, id: nat)
    requires id in s.entries && id < s.nextEntry
    ensures Keeps(s, Apply(s, step), id)
  {
    match step
    case Dial(fp, waits, hook) => DialKeeps(Prune(s), fp, waits, hook, id);
    case Decide(fp, trust) => DecideKeeps(Prune(s), fp, trust, id);
    case _ =>
  }

  lemma WaitsStep(s: State, step: Step, dial: nat)
    requires dial in s.waiting && dial < s.nextDial && step != Collect(dial) && step != TimeOut(dial)
    ensures var t := Apply(s, step);
            dial in t.waiting && t.waiting[dial] == s.waiting[dial] && dial < t.nextDial
  {
    if step.Dial? { DialIsOne(Prune(s), step.fp, step.waits, step.hook); }
  }

  lemma AwaitsStep(s: State, step: Step, dial: nat, id: nat, trust: bool)
    requires Awaits(s, dial, id, trust) && step != Collect(dial) && step != TimeOut(dial)
    ensures Awaits(Apply(s, step), dial, id, trust)
  {
    EntryStep(s, step, id);
    WaitsStep(s, step, dial);
  }

  lemma {:induction false} AwaitsStays(s: State, steps: seq<Step>, dial: nat, id: nat, trust: bool)
    requires Awaits(s, dial, id, trust) && Collect(dial) !in steps && TimeOut(dial) !in steps
    ensures Awaits(Run(s, steps), dial, id, trust)
    decreases |steps|
  {
    if steps != [] {
      AwaitsStep(s, steps[0], dial, id, trust);
      AwaitsStays(Apply(s, steps[0]), steps[1..], dial, id, trust);
    }
  }

  /** The owner's answer reaches every dial that waits for that request, whatever happens until
      the dial wakes up. */
  lemma AnswerReachesWaiting(s: State, fp: Fp, trust: bool, dial: nat, steps: seq<Step>)
    requires Inv(s) && Live(s, fp) && !s.entries[s.pairs[fp]].decided
    requires dial in s.waiting && s.waiting[dial] == s.pairs[fp]
    requires Collect(dial) !in steps && TimeOut(dial) !in steps
    ensures var u := Run(Apply(s, Decide(fp, trust)), steps);
            Apply(u, Collect(dial)).verdicts == u.verdicts + [Verdict(dial, fp, s.pairs[fp], trust, u.now, false)]
  {
    var id := s.pairs[fp];
    var t := Apply(s, Decide(fp, trust));
    assert EntryOk(s, id) && Listed(s, fp);
    DecisionKeepsDials(s, fp, trust);
    InvKept(s, Decide(fp, trust));
    AwaitsStays(t, steps, dial, id, trust);
    FpStays(t, steps, id);
    InvAlways(t, steps);
    CollectExactly(Run(t, steps), dial);
  }

  lemma DecisionKeepsDials(s: State, fp: Fp, trust: bool)
    requires Live(s, fp) && !s.entries[s.pairs[fp]].decided
    ensures var t := Apply(s, Decide(fp, trust));
            var id := s.pairs[fp];
            && t.nextDial == s.nextDial && t.nextEntry == s.nextEntry && t.waiting == s.waiting
            && id in t.entries && t.entries[id].decided && t.entries[id].trust == trust
            && t.entries[id].fp == s.entries[id].fp
  {}

  lemma {:induction false} FpStays(s: State, steps: seq<Step>, id: nat)
    requires id in s.entries && id < s.nextEntry
    ensures var t := Run(s, steps); id in t.entries && t.entries[id].fp == s.entries[id].fp
    decreases |steps|
  {
    if steps != [] {
      EntryStep(s, steps[0], id);
      FpStays(Apply(s, steps[0]), steps[1..], id);
    }
  }

  // ---------- notifying the owner ----------

  /** Who has notified the owner within the last half hour. */
  function Notifiers(notified: map<Fp, int>, now: int): set<Fp> {
    set k | k in notified && now - notified[k] < 30 * 60
  }

  /** A new request notifies the owner exactly if its controller has not done so within the
      window, and fewer than 16 have. */
  lemma ClaimExactly(notified: map<Fp, int>, fp: Fp, now: int)
    ensures var t := Claim(notified, fp, now);
            var all := Notifiers(notified, now);
            if fp !in all && |all| < 16 then
              t.Keys == all + {fp} && t[fp] == now && forall k :: k in all ==> t[k] == notified[k]
            else t.Keys == all && forall k :: k in all ==> t[k] == notified[k]
  {
    var recent := map k | k in notified && now - notified[k] < NOTIFY_WINDOW :: notified[k];
    assert recent.Keys == Notifiers(notified, now) && |recent| == |recent.Keys|;
  }

  lemma DialNotifies(s: State, fp: Fp, waits: bool, hook: bool)
    requires fp in s.pairs ==> s.pairs[fp] in s.entries
    ensures var t := DialOn(s, fp, waits, hook);
            t.notified == if hook && fp !in s.pairs && |Undecided(s)| < MAX_PENDING
                          then Claim(s.notified, fp, s.now) else s.notified
  {}

  /** A request notifies the owner when a dial has just made it, and at no other moment. */
  lemma NewRequestsNotify(s: State, step: Step)
    ensures Apply(s, step).notified ==
            if step.Dial? && step.hook && !Live(s, step.fp) && |Waiting(s)| < 16
            then Claim(s.notified, step.fp, s.now) else s.notified
  {
    WaitingIsUndecided(s);
    if step.Dial? { DialNotifies(Prune(s), step.fp, step.waits, step.hook); }
  }

  /** Until the window is over the claim stands, and keeps the controller from another one. */
  lemma {:induction false} ClaimStands(s: State, steps: seq<Step>, fp: Fp)
    requires fp in s.notified && Run(s, steps).now - s.notified[fp] < 30 * 60
    ensures var t := Run(s, steps); fp in t.notified && t.notified[fp] == s.notified[fp]
    decreases |steps|
  {
    if steps != [] {
      var t := Apply(s, steps[0]);
      TimePasses(t, steps[1..]);
      if t.notified != s.notified {
        NewRequestsNotify(s, steps[0]);
        ClaimExactly(s.notified, steps[0].fp, s.now);
      }
      ClaimStands(t, steps[1..], fp);
    }
  }

  lemma {:induction false} TimePasses(s: State, steps: seq<Step>)
    ensures s.now <= Run(s, steps).now
    decreases |steps|
  {
    if steps != [] {
      TimePasses(Apply(s, steps[0]), steps[1..]);
    }
  }
}
