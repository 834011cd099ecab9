/** Pairing an unknown controller: dials that ask, the owner who decides, and the clock.
    Every critical section of the console service is one step; a dial that waits holds
    on to its entry, while new dials see only what the table still has. */
module Pairing {
  import opened Common

  type Fp = string

  const PAIR_TTL: nat := 5 * 60
  const NOTIFY_WINDOW: nat := 30 * 60
  const MAX_PENDING: nat := 16

  datatype Entry = Entry(fp: Fp, decided: bool, trust: bool, expires: int)

  /** A dial that left, or refreshed, a request. */
  datatype Ask = Ask(dial: nat, fp: Fp, entry: nat, at: int)

  datatype Decision = Decision(entry: nat, fp: Fp, trust: bool, at: int)

  /** A dial's verdict: found on arrival, or received while waiting. */
  datatype Verdict = Verdict(dial: nat, fp: Fp, entry: nat, trust: bool, at: int, onArrival: bool)

  datatype State = State(
    now: int, frontends: nat,
    pairs: map<Fp, nat>, entries: map<nat, Entry>, nextEntry: nat,
    notified: map<Fp, int>, waiting: map<nat, nat>, nextDial: nat,
    asks: seq<Ask>, decisions: seq<Decision>, verdicts: seq<Verdict>, refused: seq<nat>)

  const INITIAL := State(0, 0, map[], map[], 0, map[], map[], 0, [], [], [], [])

  datatype Step =
    | Tick(seconds: nat)
    | Frontends(n: nat)
    | Dial(fp: Fp, waits: bool, hook: bool)
    | Decide(fp: Fp, trust: bool)
    | Collect(dial: nat)
    | TimeOut(dial: nat)

  predicate Live(s: State, fp: Fp) {
    fp in s.pairs && s.pairs[fp] in s.entries && s.now <= s.entries[s.pairs[fp]].expires
  }

  /** pruneExpiredPairsLocked. */
  function Prune(s: State): State {
    s.(pairs := map fp | fp in s.pairs && Live(s, fp) :: s.pairs[fp])
  }

  function Undecided(s: State): set<Fp> {
    set fp | fp in s.pairs && s.pairs[fp] in s.entries && !s.entries[s.pairs[fp]].decided
  }

  /** claimPairNotifyLocked. */
  function Claim(notified: map<Fp, int>, fp: Fp, now: int): map<Fp, int> {
    var recent := map k | k in notified && now - notified[k] < NOTIFY_WINDOW :: notified[k];
    if fp in recent || |recent| >= MAX_PENDING then recent else recent[fp := now]
  }

  function Deliver(s: State, v: Verdict, waiting: map<nat, nat>, nextDial: nat): State {
    s.(waiting := waiting, nextDial := nextDial, verdicts := s.verdicts + [v])
  }

  /** The verdict on arrival, which is thereby collected. */
  function DoCollectOnArrival(s: State, fp: Fp): State
    requires fp in s.pairs && s.pairs[fp] in s.entries
  {
    var id := s.pairs[fp];
    Deliver(s.(pairs := s.pairs - {fp}), Verdict(s.nextDial, fp, id, s.entries[id].trust, s.now, true),
            s.waiting, s.nextDial + 1)
  }

  /** The same fingerprint dials again: its request lives on. */
  function DoRefresh(s: State, fp: Fp): State
    requires fp in s.pairs && s.pairs[fp] in s.entries
  {
    var id := s.pairs[fp];
    s.(entries := s.entries[id := s.entries[id].(expires := s.now + PAIR_TTL)],
       asks := s.asks + [Ask(s.nextDial, fp, id, s.now)])
  }

  function DoEnlist(s: State, fp: Fp): State {
    var id := s.nextEntry;
    s.(pairs := s.pairs[fp := id], nextEntry := id + 1,
       entries := s.entries[id := Entry(fp, false, false, s.now + PAIR_TTL)],
       asks := s.asks + [Ask(s.nextDial, fp, id, s.now)])
  }

  function DoRegister(s: State, fp: Fp, hook: bool): State {
    if fp in s.pairs && s.pairs[fp] in s.entries then DoRefresh(s, fp)
    else
      var t := DoEnlist(s, fp);
      if hook then t.(notified := Claim(t.notified, fp, t.now)) else t
  }

  function DoWait(s: State, fp: Fp, waits: bool): State
    requires fp in s.pairs
  {
    s.(waiting := if waits && s.frontends > 0 then s.waiting[s.nextDial := s.pairs[fp]] else s.waiting,
       nextDial := s.nextDial + 1)
  }

  /** askPair up to the wait. */
  function DoDial(s: State, fp: Fp, waits: bool, hook: bool): State {
    DialOn(Prune(s), fp, waits, hook)
  }

  function DialOn(s: State, fp: Fp, waits: bool, hook: bool): State {
    if fp in s.pairs && s.pairs[fp] in s.entries && s.entries[s.pairs[fp]].decided then DoCollectOnArrival(s, fp)
    else if fp !in s.pairs && |Undecided(s)| >= MAX_PENDING then
      s.(refused := s.refused + [s.nextDial], nextDial := s.nextDial + 1)
    else DoWait(DoRegister(s, fp, hook), fp, waits)
  }

  /** DecidePair; the verdict counts only for a live, undecided request. */
  function DoDecide(s: State, fp: Fp, trust: bool): (State, bool) {
    DecideOn(Prune(s), fp, trust)
  }

  function Decided(s: State, id: nat, d: Decision, expires: int): State
    requires id in s.entries
  {
    s.(entries := s.entries[id := s.entries[id].(decided := true, trust := d.trust, expires := expires)],
       decisions := s.decisions + [d])
  }

  function DecideOn(s: State, fp: Fp, trust: bool): (State, bool) {
    if fp !in s.pairs || s.pairs[fp] !in s.entries || s.entries[s.pairs[fp]].decided then (s, false)
    else
      var id := s.pairs[fp];
      var d := Decision(id, fp, trust, s.now);
      (if trust then Decided(s, id, d, s.now + PAIR_TTL)
       else Decided(s.(pairs := s.pairs - {fp}), id, d, s.entries[id].expires), true)
  }

  /** A waiting dial wakes up on its own entry's verdict. */
  function DoCollect(s: State, dial: nat): State
    requires dial in s.waiting && s.waiting[dial] in s.entries
  {
    var id := s.waiting[dial];
    var fp := s.entries[id].fp;
    Deliver(s.(pairs := if fp in s.pairs && s.pairs[fp] == id then s.pairs - {fp} else s.pairs),
            Verdict(dial, fp, id, s.entries[id].trust, s.now, false), s.waiting - {dial}, s.nextDial)
  }

  function Apply(s: State, step: Step): State {
    match step
    case Tick(seconds) => s.(now := s.now + seconds)
    case Frontends(n) => s.(frontends := n)
    case Dial(fp, waits, hook) => DoDial(s, fp, waits, hook)
    case Decide(fp, trust) => DoDecide(s, fp, trust).0
    case Collect(dial) =>
      if dial in s.waiting && s.waiting[dial] in s.entries && s.entries[s.waiting[dial]].decided
      then DoCollect(s, dial) else s
    case TimeOut(dial) => s.(waiting := s.waiting - {dial})
  }

  function Run(s: State, steps: seq<Step>): State
    decreases |steps|
  {
    if steps == [] then s else Run(Apply(s, steps[0]), steps[1..])
  }

  // ---------- invariant ----------

  ghost predicate Listed(s: State, fp: Fp)
    requires fp in s.pairs
  {
    s.pairs[fp] in s.entries && s.entries[s.pairs[fp]].fp == fp
  }

  /** The entry was asked for by a dial of its fingerprint, which fixes how long it lives. */
  ghost predicate AskedFor(asks: seq<Ask>, id: nat, e: Entry) {
    exists a :: a in asks && a.entry == id && a.fp == e.fp && e.expires == a.at + PAIR_TTL
  }

  /** Some decision made this entry what it is. */
  ghost predicate DecidedBy(decisions: seq<Decision>, id: nat, fp: Fp, trust: bool) {
    exists d :: d in decisions && d.entry == id && d.fp == fp && d.trust == trust
  }

  /** The owner answered a dial for the entry, within the TTL of it. */
  ghost predicate InTime(asks: seq<Ask>, d: Decision) {
    exists a :: a in asks && a.entry == d.entry && a.fp == d.fp && a.at <= d.at <= a.at + PAIR_TTL
  }

  ghost predicate EntryOk(s: State, id: nat)
    requires id in s.entries
  {
    var e := s.entries[id];
    && id < s.nextEntry
    && (if e.decided then DecidedBy(s.decisions, id, e.fp, e.trust) else AskedFor(s.asks, id, e))
  }

  /** An approval still in the table waits for its controller, no longer than the TTL. */
  ghost predicate Approved(s: State, id: nat)
    requires id in s.entries
  {
    && s.entries[id].trust
    && exists d :: d in s.decisions && d.entry == id && s.entries[id].expires == d.at + PAIR_TTL
  }

  ghost predicate DecisionOk(s: State, d: Decision) {
    d.entry in s.entries && s.entries[d.entry].decided && InTime(s.asks, d)
  }

  /** The entry can no longer be found by a dial that starts now. */
  predicate Gone(s: State, id: nat) {
    id in s.entries && !(s.entries[id].fp in s.pairs && s.pairs[s.entries[id].fp] == id)
  }

  ghost predicate VerdictOk(s: State, v: Verdict) {
    v.dial < s.nextDial && Earned(s, v)
  }

  ghost predicate Earned(s: State, v: Verdict) {
    && Gone(s, v.entry)
    && s.entries[v.entry].decided && s.entries[v.entry].fp == v.fp && s.entries[v.entry].trust == v.trust
    && (v.onArrival ==> v.trust && exists d :: d in s.decisions && d.entry == v.entry && v.at <= d.at + PAIR_TTL)
  }

  ghost predicate Tables(s: State) {
    && (forall fp :: fp in s.pairs ==> Listed(s, fp))
    && (forall id :: id in s.entries ==> EntryOk(s, id))
    && (forall fp :: fp in s.pairs && s.pairs[fp] in s.entries && s.entries[s.pairs[fp]].decided ==>
          Approved(s, s.pairs[fp]))
    && (forall dial :: dial in s.waiting ==> dial < s.nextDial && s.waiting[dial] in s.entries)
  }

  ghost predicate History(s: State) {
    && (forall d :: d in s.decisions ==> DecisionOk(s, d))
    && (forall i, j :: 0 <= i < j < |s.decisions| ==> s.decisions[i].entry != s.decisions[j].entry)
    && (forall v :: v in s.verdicts ==> VerdictOk(s, v))
    && (forall a :: a in s.asks ==> a.at <= s.now)
  }

  ghost predicate Bounds(s: State) {
    |Undecided(s)| <= MAX_PENDING && |s.notified| <= MAX_PENDING
  }

  ghost predicate Inv(s: State) {
    Tables(s) && History(s) && Bounds(s)
  }

  /** Taking requests out of the table keeps everything. */
  lemma Shrink(s: State, t: State)
    requires Inv(s) && t == s.(pairs := t.pairs)
    requires forall fp :: fp in t.pairs ==> fp in s.pairs && t.pairs[fp] == s.pairs[fp]
    ensures Inv(t)
  {
    forall fp | fp in t.pairs ensures Listed(t, fp) { assert Listed(s, fp); }
    forall id | id in t.entries ensures EntryOk(t, id) { assert EntryOk(s, id); }
    forall fp | fp in t.pairs && t.entries[t.pairs[fp]].decided ensures Approved(t, t.pairs[fp]) {
      assert Approved(s, s.pairs[fp]);
    }
    forall d | d in t.decisions ensures DecisionOk(t, d) { assert DecisionOk(s, d); }
    forall v | v in t.verdicts ensures VerdictOk(t, v) { assert VerdictOk(s, v); }
    SubsetSize(Undecided(t), Undecided(s));
  }

  lemma DeliverInv(s: State, v: Verdict, waiting: map<nat, nat>, nextDial: nat)
    requires Inv(s) && s.nextDial <= nextDial && v.dial < nextDial && Earned(s, v)
    requires forall d :: d in waiting ==> d in s.waiting && waiting[d] == s.waiting[d]
    ensures Inv(Deliver(s, v, waiting, nextDial))
  {
    var t := Deliver(s, v, waiting, nextDial);
    forall fp | fp in t.pairs ensures Listed(t, fp) { assert Listed(s, fp); }
    forall id | id in t.entries ensures EntryOk(t, id) { assert EntryOk(s, id); }
    forall fp | fp in t.pairs && t.entries[t.pairs[fp]].decided ensures Approved(t, t.pairs[fp]) {
      assert Approved(s, s.pairs[fp]);
    }
    forall d | d in t.decisions ensures DecisionOk(t, d) { assert DecisionOk(s, d); }
    forall w | w in t.verdicts ensures VerdictOk(t, w) {
      if w != v { assert VerdictOk(s, w); }
      assert Earned(s, w);
    }
    assert Undecided(t) == Undecided(s);
  }

  lemma EarnedOnArrival(s: State, u: State, fp: Fp)
    requires Live(s, fp) && Listed(s, fp) && s.entries[s.pairs[fp]].decided && Approved(s, s.pairs[fp])
    requires u == s.(pairs := s.pairs - {fp})
    ensures Earned(u, Verdict(s.nextDial, fp, s.pairs[fp], s.entries[s.pairs[fp]].trust, s.now, true))
  {
    var id := s.pairs[fp];
    var d :| d in s.decisions && d.entry == id && s.entries[id].expires == d.at + PAIR_TTL;
    assert d in u.decisions;
  }

  lemma ArrivalInv(s: State, fp: Fp)
    requires Live(s, fp) && Listed(s, fp) && s.entries[s.pairs[fp]].decided && Approved(s, s.pairs[fp])
    requires Inv(s.(pairs := s.pairs - {fp}))
    ensures Inv(DoCollectOnArrival(s, fp))
  {
    var id := s.pairs[fp];
    var u := s.(pairs := s.pairs - {fp});
    EarnedOnArrival(s, u, fp);
    DeliverInv(u, Verdict(s.nextDial, fp, id, s.entries[id].trust, s.now, true), s.waiting, s.nextDial + 1);
  }

  lemma CollectInv(s: State, dial: nat)
    requires Inv(s) && dial in s.waiting && s.waiting[dial] in s.entries && s.entries[s.waiting[dial]].decided
    ensures Inv(DoCollect(s, dial))
  {
    var id := s.waiting[dial];
    var fp := s.entries[id].fp;
    var u := s.(pairs := if fp in s.pairs && s.pairs[fp] == id then s.pairs - {fp} else s.pairs);
    Shrink(s, u);
    DeliverInv(u, Verdict(dial, fp, id, s.entries[id].trust, s.now, false), s.waiting - {dial}, s.nextDial);
  }

  lemma ClaimBound(notified: map<Fp, int>, fp: Fp, now: int)
    requires |notified| <= MAX_PENDING
    ensures |Claim(notified, fp, now)| <= MAX_PENDING
  {
    var recent := map k | k in notified && now - notified[k] < NOTIFY_WINDOW :: notified[k];
    SubsetSize(recent.Keys, notified.Keys);
    assert |recent| == |recent.Keys|;
    if fp !in recent && |recent| < MAX_PENDING {
      assert recent[fp := now].Keys == recent.Keys + {fp};
    }
  }

  ghost predicate Asks(s: State, t: State, fp: Fp, id: nat, a: Ask) {
    && id in t.entries && !t.entries[id].decided && t.entries[id].fp == fp && t.entries[id].expires == s.now + PAIR_TTL
    && a.entry == id && a.fp == fp && a.at == s.now
    && t.entries == s.entries[id := t.entries[id]] && t.pairs == s.pairs[fp := id] && t.asks == s.asks + [a]
    && (id in s.entries ==> fp in s.pairs && s.pairs[fp] == id && !s.entries[id].decided && t.nextEntry == s.nextEntry)
    && (id !in s.entries ==> id == s.nextEntry && t.nextEntry == s.nextEntry + 1)
    && t.decisions == s.decisions && t.verdicts == s.verdicts && t.waiting == s.waiting && t.nextDial == s.nextDial
    && t.now == s.now
  }

  lemma AskTables(s: State, t: State, fp: Fp, id: nat, a: Ask)
    requires Inv(s) && Asks(s, t, fp, id, a)
    ensures Tables(t)
  {
    forall x | x in t.pairs ensures Listed(t, x) {
      if x != fp { assert Listed(s, x); }
    }
    forall j | j in t.entries ensures EntryOk(t, j) {
      if j == id {
        assert a in t.asks;
      } else {
        assert EntryOk(s, j);
        AskedStays(s.asks, a, j, s.entries[j]);
      }
    }
    forall x | x in t.pairs && t.entries[t.pairs[x]].decided ensures Approved(t, t.pairs[x]) {
      assert Listed(s, x) && Approved(s, s.pairs[x]);
    }
  }

  lemma AskedStays(asks: seq<Ask>, a: Ask, id: nat, e: Entry)
    ensures AskedFor(asks, id, e) ==> AskedFor(asks + [a], id, e)
  {
    if AskedFor(asks, id, e) {
      var b :| b in asks && b.entry == id && b.fp == e.fp && e.expires == b.at + PAIR_TTL;
      assert b in asks + [a];
    }
  }

  lemma InTimeStays(asks: seq<Ask>, a: Ask, d: Decision)
    ensures InTime(asks, d) ==> InTime(asks + [a], d)
  {
    if InTime(asks, d) {
      var b :| b in asks && b.entry == d.entry && b.fp == d.fp && b.at <= d.at <= b.at + PAIR_TTL;
      assert b in asks + [a];
    }
  }

  lemma AskHistory(s: State, t: State, fp: Fp, id: nat, a: Ask)
    requires Inv(s) && Asks(s, t, fp, id, a)
    ensures History(t)
  {
    forall d | d in t.decisions ensures DecisionOk(t, d) {
      assert DecisionOk(s, d);
      InTimeStays(s.asks, a, d);
    }
    forall v | v in t.verdicts ensures VerdictOk(t, v) {
      assert VerdictOk(s, v) && v.entry != id;
      assert v.fp in t.pairs ==> v.fp == fp || v.fp in s.pairs;
    }
  }

  lemma Registers(s: State, fp: Fp, hook: bool) returns (id: nat, a: Ask)
    requires fp in s.pairs ==> Listed(s, fp) && !s.entries[s.pairs[fp]].decided
    requires s.nextEntry !in s.entries
    ensures Asks(s, DoRegister(s, fp, hook), fp, id, a)
  {
    id := if fp in s.pairs then s.pairs[fp] else s.nextEntry;
    a := Ask(s.nextDial, fp, id, s.now);
  }

  lemma RegisterBounds(s: State, fp: Fp, hook: bool)
    requires Bounds(s) && forall x :: x in s.pairs ==> Listed(s, x)
    requires fp in s.pairs ==> Listed(s, fp) && !s.entries[s.pairs[fp]].decided
    requires fp !in s.pairs ==> |Undecided(s)| < MAX_PENDING && s.nextEntry !in s.entries
    ensures Bounds(DoRegister(s, fp, hook))
  {
    ClaimBound(s.notified, fp, s.now);
    var t := DoRegister(s, fp, hook);
    if fp in s.pairs { assert Listed(s, fp); }
    forall x | x in Undecided(t) ensures x in Undecided(s) + {fp} {
      assert x != fp ==> Listed(s, x);
    }
    SubsetSize(Undecided(t), Undecided(s) + {fp});
    if fp in s.pairs { assert Undecided(s) + {fp} == Undecided(s); }
  }

  /** A dial that refreshes its request, or registers one. */
  lemma RegisterInv(s: State, fp: Fp, hook: bool)
    requires Inv(s) && (fp in s.pairs ==> !s.entries[s.pairs[fp]].decided)
    requires fp !in s.pairs ==> |Undecided(s)| < MAX_PENDING
    ensures Inv(DoRegister(s, fp, hook)) && fp in DoRegister(s, fp, hook).pairs
  {
    assert fp in s.pairs ==> Listed(s, fp);
    assert s.nextEntry in s.entries ==> EntryOk(s, s.nextEntry);
    var id, a := Registers(s, fp, hook);
    AskTables(s, DoRegister(s, fp, hook), fp, id, a);
    AskHistory(s, DoRegister(s, fp, hook), fp, id, a);
    RegisterBounds(s, fp, hook);
  }

  lemma WaitInv(s: State, fp: Fp, waits: bool)
    requires Inv(s) && fp in s.pairs
    ensures Inv(DoWait(s, fp, waits))
  {
    var t := DoWait(s, fp, waits);
    assert Listed(s, fp);
    SameBooks(s, t);
  }

  /** Clock, front-ends and dials that come or go touch no request. */
  lemma SameBooks(s: State, t: State)
    requires Inv(s) && s.nextDial <= t.nextDial && s.now <= t.now
    requires t.pairs == s.pairs && t.entries == s.entries && t.nextEntry == s.nextEntry && t.notified == s.notified
    requires t.asks == s.asks && t.decisions == s.decisions && t.verdicts == s.verdicts
    requires forall d :: d in t.waiting ==> d < t.nextDial && t.waiting[d] in s.entries
    ensures Inv(t)
  {
    forall fp | fp in t.pairs ensures Listed(t, fp) { assert Listed(s, fp); }
    forall id | id in t.entries ensures EntryOk(t, id) { assert EntryOk(s, id); }
    forall fp | fp in t.pairs && t.pairs[fp] in t.entries && t.entries[t.pairs[fp]].decided
      ensures Approved(t, t.pairs[fp]) {
      assert Approved(s, s.pairs[fp]);
    }
    forall d | d in t.decisions ensures DecisionOk(t, d) { assert DecisionOk(s, d); }
    forall v | v in t.verdicts ensures VerdictOk(t, v) { assert VerdictOk(s, v); }
    assert Undecided(t) == Undecided(s);
  }

  lemma RefuseInv(s: State)
    requires Inv(s)
    ensures Inv(s.(refused := s.refused + [s.nextDial], nextDial := s.nextDial + 1))
  {
    SameBooks(s, s.(refused := s.refused + [s.nextDial], nextDial := s.nextDial + 1));
  }

  lemma RemoveInv(s: State, fp: Fp)
    requires Inv(s)
    ensures Inv(s.(pairs := s.pairs - {fp}))
  {
    Shrink(s, s.(pairs := s.pairs - {fp}));
  }

  lemma PruneInv(s: State)
    requires Inv(s)
    ensures Inv(Prune(s)) && forall fp :: fp in Prune(s).pairs ==> Live(Prune(s), fp) && Listed(Prune(s), fp)
  {
    Shrink(s, Prune(s));
    forall fp | fp in Prune(s).pairs ensures Live(Prune(s), fp) && Listed(Prune(s), fp) {
      assert Listed(s, fp);
    }
  }

  lemma DialInv(s0: State, fp: Fp, waits: bool, hook: bool)
    requires Inv(s0)
    ensures Inv(DoDial(s0, fp, waits, hook))
  {
    PruneInv(s0);
    DialPruned(Prune(s0), fp, waits, hook);
  }

  lemma DialPruned(s: State, fp: Fp, waits: bool, hook: bool)
    requires Inv(s) && forall x :: x in s.pairs ==> Live(s, x) && Listed(s, x)
    ensures Inv(DialOn(s, fp, waits, hook))
  {
    if fp in s.pairs && s.entries[s.pairs[fp]].decided {
      RemoveInv(s, fp);
      ArrivalInv(s, fp);
    } else if fp !in s.pairs && |Undecided(s)| >= MAX_PENDING {
      RefuseInv(s);
    } else {
      AskInv(s, fp, waits, hook);
    }
  }

  lemma AskInv(s: State, fp: Fp, waits: bool, hook: bool)
    requires Inv(s) && (fp in s.pairs ==> Listed(s, fp) && !s.entries[s.pairs[fp]].decided)
    requires fp !in s.pairs ==> |Undecided(s)| < MAX_PENDING
    ensures fp in DoRegister(s, fp, hook).pairs && Inv(DoWait(DoRegister(s, fp, hook), fp, waits))
  {
    RegisterInv(s, fp, hook);
    WaitInv(DoRegister(s, fp, hook), fp, waits);
  }

  // ---------- decisions ----------

  ghost predicate Decides(s: State, id: nat, d: Decision, expires: int) {
    && id in s.entries && !s.entries[id].decided && d.entry == id && d.fp == s.entries[id].fp
    && s.now == d.at <= s.entries[id].expires
    && (if d.trust then expires == d.at + PAIR_TTL else Gone(s, id))
  }

  lemma DecidedStays(decisions: seq<Decision>, d: Decision, id: nat, fp: Fp, trust: bool)
    ensures DecidedBy(decisions, id, fp, trust) ==> DecidedBy(decisions + [d], id, fp, trust)
  {
    if DecidedBy(decisions, id, fp, trust) {
      var b :| b in decisions && b.entry == id && b.fp == fp && b.trust == trust;
      assert b in decisions + [d];
    }
  }

  lemma DecidedInTime(s: State, id: nat, d: Decision)
    requires id in s.entries && EntryOk(s, id) && !s.entries[id].decided && forall a :: a in s.asks ==> a.at <= s.now
    requires d.entry == id && d.fp == s.entries[id].fp && s.now == d.at <= s.entries[id].expires
    ensures InTime(s.asks, d)
  {
    var e := s.entries[id];
    var a :| a in s.asks && a.entry == id && a.fp == e.fp && e.expires == a.at + PAIR_TTL;
    assert a in s.asks;
  }

  lemma EarnedStays(s: State, id: nat, d: Decision, expires: int, v: Verdict)
    requires id in s.entries && !s.entries[id].decided && Earned(s, v)
    ensures Earned(Decided(s, id, d, expires), v)
  {
    assert forall x :: x in s.decisions ==> x in s.decisions + [d];
  }

  lemma DecideHistory(s: State, id: nat, d: Decision, expires: int)
    requires Inv(s) && Decides(s, id, d, expires)
    ensures History(Decided(s, id, d, expires))
  {
    var t := Decided(s, id, d, expires);
    assert EntryOk(s, id);
    DecidedInTime(s, id, d);
    forall x | x in t.decisions ensures DecisionOk(t, x) {
      if x != d { assert DecisionOk(s, x); }
    }
    forall i | 0 <= i < |s.decisions| ensures s.decisions[i].entry != id {
      assert DecisionOk(s, s.decisions[i]);
    }
    forall v | v in t.verdicts ensures VerdictOk(t, v) {
      assert VerdictOk(s, v);
      EarnedStays(s, id, d, expires, v);
    }
  }

  lemma DecideTables(s: State, id: nat, d: Decision, expires: int)
    requires Inv(s) && Decides(s, id, d, expires)
    ensures Tables(Decided(s, id, d, expires))
  {
    var t := Decided(s, id, d, expires);
    forall fp | fp in t.pairs ensures Listed(t, fp) { assert Listed(s, fp); }
    forall j | j in t.entries ensures EntryOk(t, j) {
      assert EntryOk(s, j);
      if j == id {
        assert d in t.decisions;
      } else {
        DecidedStays(s.decisions, d, j, s.entries[j].fp, s.entries[j].trust);
      }
    }
    forall fp | fp in t.pairs && t.entries[t.pairs[fp]].decided ensures Approved(t, t.pairs[fp]) {
      assert Listed(s, fp);
      if t.pairs[fp] == id {
        assert d in t.decisions;
      } else {
        assert Approved(s, s.pairs[fp]);
        assert forall x :: x in s.decisions ==> x in t.decisions;
      }
    }
  }

  lemma DecidedInv(s: State, id: nat, d: Decision, expires: int)
    requires Inv(s) && Decides(s, id, d, expires)
    ensures Inv(Decided(s, id, d, expires))
  {
    DecideTables(s, id, d, expires);
    DecideHistory(s, id, d, expires);
    SubsetSize(Undecided(Decided(s, id, d, expires)), Undecided(s));
  }

  lemma DecideInv(s0: State, fp: Fp, trust: bool)
    requires Inv(s0)
    ensures Inv(DoDecide(s0, fp, trust).0)
  {
    PruneInv(s0);
    DecidePruned(Prune(s0), fp, trust);
  }

  /** What the owner's answer does to a live, undecided request. */
  lemma AnswerDecides(s: State, fp: Fp, trust: bool)
    requires Live(s, fp) && Listed(s, fp) && !s.entries[s.pairs[fp]].decided
    ensures var u := if trust then s else s.(pairs := s.pairs - {fp});
            var expires := if trust then s.now + PAIR_TTL else s.entries[s.pairs[fp]].expires;
            var d := Decision(s.pairs[fp], fp, trust, s.now);
            Decides(u, s.pairs[fp], d, expires) && DecideOn(s, fp, trust).0 == Decided(u, s.pairs[fp], d, expires)
  {}

  lemma ApproveInv(s: State, fp: Fp)
    requires Inv(s) && Live(s, fp) && Listed(s, fp) && !s.entries[s.pairs[fp]].decided
    ensures Inv(DecideOn(s, fp, true).0)
  {
    AnswerDecides(s, fp, true);
    DecidedInv(s, s.pairs[fp], Decision(s.pairs[fp], fp, true, s.now), s.now + PAIR_TTL);
  }

  lemma DenyInv(s: State, u: State, fp: Fp)
    requires Live(s, fp) && Listed(s, fp) && !s.entries[s.pairs[fp]].decided
    requires u == s.(pairs := s.pairs - {fp}) && Inv(u)
    ensures Inv(DecideOn(s, fp, false).0)
  {
    AnswerDecides(s, fp, false);
    DecidedInv(u, s.pairs[fp], Decision(s.pairs[fp], fp, false, s.now), s.entries[s.pairs[fp]].expires);
  }

  lemma DecidePruned(s: State, fp: Fp, trust: bool)
    requires Inv(s) && forall x :: x in s.pairs ==> Live(s, x) && Listed(s, x)
    ensures Inv(DecideOn(s, fp, trust).0)
  {
    if fp !in s.pairs || s.pairs[fp] !in s.entries || s.entries[s.pairs[fp]].decided {
      assert DecideOn(s, fp, trust).0 == s;
    } else if trust {
      ApproveInv(s, fp);
    } else {
      RemoveInv(s, fp);
      DenyInv(s, s.(pairs := s.pairs - {fp}), fp);
    }
  }

  lemma InvKept(s: State, step: Step)
    requires Inv(s)
    ensures Inv(Apply(s, step))
  {
    match step
    case Dial(fp, waits, hook) => DialInv(s, fp, waits, hook);
    case Decide(fp, trust) => DecideInv(s, fp, trust);
    case Collect(dial) =>
      if Apply(s, step) != s { CollectInv(s, dial); }
    case _ => SameBooks(s, Apply(s, step));
  }

  lemma {:induction false} InvAlways(s: State, steps: seq<Step>)
    requires Inv(s)
    ensures Inv(Run(s, steps))
    decreases |steps|
  {
    if steps != [] {
      InvKept(s, steps[0]);
      InvAlways(Apply(s, steps[0]), steps[1..]);
    }
  }

  /** Whatever the dials, the owner and the clock do: a controller is trusted only on the
      owner's own yes to a request of that fingerprint, given in answer to a dial for it and within
      the TTL of that dial; a dial that finds the yes on arrival comes within the TTL of it; no request is
      decided twice; and at most 16 requests and 16 notifications are ever outstanding. */
  lemma PairingIsSafe(steps: seq<Step>)
    ensures var t := Run(INITIAL, steps);
            && (forall v :: v in t.verdicts ==> DecidedBy(t.decisions, v.entry, v.fp, v.trust))
            && (forall d :: d in t.decisions ==> InTime(t.asks, d))
            && (forall v :: v in t.verdicts && v.onArrival ==> Prompt(t.decisions, v))
            && (forall i, j :: 0 <= i < j < |t.decisions| ==> t.decisions[i].entry != t.decisions[j].entry)
            && |Undecided(t)| <= MAX_PENDING && |t.notified| <= MAX_PENDING
  {
    assert Undecided(INITIAL) == {};
    InvAlways(INITIAL, steps);
    var t := Run(INITIAL, steps);
    forall v | v in t.verdicts
      ensures DecidedBy(t.decisions, v.entry, v.fp, v.trust) && (v.onArrival ==> Prompt(t.decisions, v)) {
      assert VerdictOk(t, v) && EntryOk(t, v.entry);
    }
    forall d | d in t.decisions ensures InTime(t.asks, d) { assert DecisionOk(t, d); }
  }

  ghost predicate Prompt(decisions: seq<Decision>, v: Verdict) {
    v.trust && exists d :: d in decisions && d.entry == v.entry && v.at <= d.at + PAIR_TTL
  }

  // ---------- collected once ----------

  /** Only dials before the limit hold, or have received, the entry's verdict. */
  ghost predicate Spent(s: State, id: nat, limit: nat) {
    && Gone(s, id) && id < s.nextEntry && limit <= s.nextDial
    && (forall dial :: dial in s.waiting && s.waiting[dial] == id ==> dial < limit)
    && (forall v :: v in s.verdicts && v.entry == id ==> v.dial < limit)
  }

  lemma PruneSpent(s: State, id: nat, limit: nat)
    requires Spent(s, id, limit)
    ensures Spent(Prune(s), id, limit)
  {}

  lemma DialSpent(s: State, fp: Fp, waits: bool, hook: bool, id: nat, limit: nat)
    requires Spent(s, id, limit) && forall x :: x in s.pairs ==> Listed(s, x)
    ensures Spent(DialOn(s, fp, waits, hook), id, limit)
  {
    assert fp in s.pairs ==> Listed(s, fp) && s.pairs[fp] != id;
  }

  lemma DecideSpent(s: State, fp: Fp, trust: bool, id: nat, limit: nat)
    requires Spent(s, id, limit) && forall x :: x in s.pairs ==> Listed(s, x)
    ensures Spent(DecideOn(s, fp, trust).0, id, limit)
  {
    assert fp in s.pairs ==> Listed(s, fp) && s.pairs[fp] != id;
  }

  lemma SpentKept(s: State, step: Step, id: nat, limit: nat)
    requires Spent(s, id, limit) && forall x :: x in s.pairs ==> Listed(s, x)
    ensures Spent(Apply(s, step), id, limit)
  {
    PruneSpent(s, id, limit);
    assert forall x :: x in Prune(s).pairs ==> x in s.pairs && Listed(s, x) && Listed(Prune(s), x);
    match step
    case Dial(fp, waits, hook) => DialSpent(Prune(s), fp, waits, hook, id, limit);
    case Decide(fp, trust) => DecideSpent(Prune(s), fp, trust, id, limit);
    case _ =>
  }

  lemma {:induction false} SpentStays(s: State, steps: seq<Step>, id: nat, limit: nat)
    requires Inv(s) && Spent(s, id, limit)
    ensures Spent(Run(s, steps), id, limit)
    decreases |steps|
  {
    if steps != [] {
      SpentKept(s, steps[0], id, limit);
      InvKept(s, steps[0]);
      SpentStays(Apply(s, steps[0]), steps[1..], id, limit);
    }
  }

  /** Once some dial has received a verdict, no dial that starts later can ever receive it. */
  lemma CollectedOnce(past: seq<Step>, future: seq<Step>, v: Verdict, w: Verdict)
    requires var s := Run(INITIAL, past); v in s.verdicts
    requires w in Run(Run(INITIAL, past), future).verdicts && w.entry == v.entry
    ensures w.dial < Run(INITIAL, past).nextDial
  {
    assert Undecided(INITIAL) == {};
    InvAlways(INITIAL, past);
    var s := Run(INITIAL, past);
    assert VerdictOk(s, v) && EntryOk(s, v.entry);
    forall x | x in s.verdicts && x.entry == v.entry ensures x.dial < s.nextDial { assert VerdictOk(s, x); }
    SpentStays(s, future, v.entry, s.nextDial);
  }

  /** A yes reaches the next dial of its fingerprint if and only if that comes within the TTL. */
  lemma ApprovalReaches(s: State, fp: Fp, later: nat, waits: bool, hook: bool)
    requires DecideOn(s, fp, true).1
    ensures var u := DecideOn(s, fp, true).0;
            var t := DoDial(u.(now := u.now + later), fp, waits, hook);
            if later <= PAIR_TTL then
              t.verdicts == u.verdicts + [Verdict(u.nextDial, fp, s.pairs[fp], true, u.now + later, true)]
            else t.verdicts == u.verdicts
  {}

  /** A no drops the request: the next dial gets no verdict, and a fresh request unless too
      many are waiting. */
  lemma RefusalForgets(s: State, fp: Fp, later: nat, waits: bool, hook: bool)
    requires DecideOn(s, fp, false).1
    ensures var u := DecideOn(s, fp, false).0;
            var t := DoDial(u.(now := u.now + later), fp, waits, hook);
            && t.verdicts == u.verdicts
            && (if fp in t.pairs then t.pairs[fp] == u.nextEntry else t.refused == u.refused + [u.nextDial])
  {}
}
