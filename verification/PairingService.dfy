/** The console's pairing service as an object: the loops over its tables, and the
    critical sections of a dial, of the owner's decision and of collecting a verdict. */
module PairingService {
  import opened Common
  import opened Pairing

  datatype Outcome = Answered(trust: bool) | TooMany | Reported(hasFrontend: bool, report: bool)

  class Service {
    var now: int
    var frontends: nat
    var pairs: map<Fp, nat>
    var entries: map<nat, Entry>
    var nextEntry: nat
    var notified: map<Fp, int>
    ghost var waiting: map<nat, nat>
    ghost var nextDial: nat
    ghost var asks: seq<Ask>
    ghost var decisions: seq<Decision>
    ghost var verdicts: seq<Verdict>
    ghost var refused: seq<nat>

    ghost function Abs(): State
      reads this
    {
      State(now, frontends, pairs, entries, nextEntry, notified, waiting, nextDial, asks, decisions, verdicts, refused)
    }

    /** Every listed request has its entry. */
    ghost predicate Linked()
      reads this
    {
      forall fp :: fp in pairs ==> pairs[fp] in entries
    }

    constructor ()
      ensures Abs() == INITIAL && Linked()
    {
      now, frontends, pairs, entries, nextEntry, notified := 0, 0, map[], map[], 0, map[];
      waiting, nextDial, asks, decisions, verdicts, refused := map[], 0, [], [], [], [];
    }

    method PruneExpiredPairsLocked()
      requires Linked()
      modifies this`pairs
      ensures Abs() == Prune(old(Abs())) && Linked()
    {
      var todo := pairs.Keys;
      ghost var was := pairs;
      while todo != {}
        invariant todo <= was.Keys && pairs.Keys <= was.Keys
        invariant forall fp :: fp in todo ==> fp in pairs
        invariant forall fp :: fp in pairs ==> pairs[fp] == was[fp] && was[fp] in entries
        invariant forall fp :: fp in was.Keys - todo ==> (fp in pairs <==> now <= entries[was[fp]].expires)
      {
        var fp :| fp in todo;
        if now > entries[pairs[fp]].expires {
          pairs := pairs - {fp};
        }
        todo := todo - {fp};
      }
      assert pairs == Prune(old(Abs())).pairs;
    }

    method UndecidedPairsLocked() returns (n: nat)
      requires Linked()
      ensures n == |Undecided(Abs())|
    {
      n := 0;
      var todo := pairs.Keys;
      while todo != {}
        invariant todo <= pairs.Keys
        invariant n == |Undecided(Abs()) - todo|
      {
        var fp :| fp in todo;
        var rest := todo - {fp};
        if !entries[pairs[fp]].decided {
          n := n + 1;
          assert Undecided(Abs()) - rest == (Undecided(Abs()) - todo) + {fp};
        } else {
          assert Undecided(Abs()) - rest == Undecided(Abs()) - todo;
        }
        todo := rest;
      }
      assert Undecided(Abs()) - {} == Undecided(Abs());
    }

    /** Whether a new request may notify the owner; at most once a window for each. */
    method ClaimPairNotifyLocked(fp: Fp) returns (claimed: bool)
      modifies this`notified
      ensures notified == Claim(old(notified), fp, now)
      ensures claimed ==> fp in notified && notified[fp] == now
      ensures claimed <==> fp in notified && (fp !in old(notified) || now - old(notified[fp]) >= NOTIFY_WINDOW)
    {
      var todo := notified.Keys;
      ghost var was := notified;
      while todo != {}
        invariant todo <= was.Keys && notified.Keys <= was.Keys
        invariant forall k :: k in todo ==> k in notified
        invariant forall k :: k in notified ==> notified[k] == was[k]
        invariant forall k :: k in was.Keys - todo ==> (k in notified <==> now - was[k] < NOTIFY_WINDOW)
      {
        var k :| k in todo;
        if now - notified[k] >= NOTIFY_WINDOW {
          notified := notified - {k};
        }
        todo := todo - {k};
      }
      assert notified == map k | k in was && now - was[k] < NOTIFY_WINDOW :: was[k];
      if fp in notified || |notified| >= MAX_PENDING {
        return false;
      }
      notified := notified[fp := now];
      return true;
    }

    /** The answer of a decided request that its controller's dial has found. */
    method CollectOnArrival(fp: Fp) returns (trust: bool)
      requires fp in pairs && Linked()
      modifies this`pairs, this`verdicts, this`nextDial
      ensures Abs() == DoCollectOnArrival(old(Abs()), fp) && Linked()
      ensures trust == entries[old(pairs)[fp]].trust
    {
      trust := entries[pairs[fp]].trust;
      verdicts := verdicts + [Verdict(nextDial, fp, pairs[fp], trust, now, true)];
      pairs := pairs - {fp};
      nextDial := nextDial + 1;
    }

    method Refresh(fp: Fp)
      requires fp in pairs && Linked()
      modifies this`entries, this`asks
      ensures Abs() == DoRefresh(old(Abs()), fp) && Linked()
    {
      var id := pairs[fp];
      entries := entries[id := entries[id].(expires := now + PAIR_TTL)];
      asks := asks + [Ask(nextDial, fp, id, now)];
    }

    method Enlist(fp: Fp)
      requires Linked()
      modifies this`pairs, this`entries, this`nextEntry, this`asks
      ensures Abs() == DoEnlist(old(Abs()), fp) && Linked()
    {
      pairs := pairs[fp := nextEntry];
      entries := entries[nextEntry := Entry(fp, false, false, now + PAIR_TTL)];
      asks := asks + [Ask(nextDial, fp, nextEntry, now)];
      nextEntry := nextEntry + 1;
    }

    method AwaitVerdict(fp: Fp, waits: bool) returns (hasFrontend: bool)
      requires fp in pairs
      modifies this`waiting, this`nextDial
      ensures Abs() == DoWait(old(Abs()), fp, waits) && hasFrontend == (waits && frontends > 0)
    {
      hasFrontend := waits && frontends > 0;
      if hasFrontend {
        waiting := waiting[nextDial := pairs[fp]];
      }
      nextDial := nextDial + 1;
    }

    /** One verdict was delivered, to the dial that has just come. */
    twostate predicate Answers(fp: Fp, trust: bool)
      reads this
    {
      && nextDial == old(nextDial) + 1 && |verdicts| == |old(verdicts)| + 1
      && verdicts[..|old(verdicts)|] == old(verdicts)
      && var v := verdicts[|old(verdicts)|]; v.dial == old(nextDial) && v.fp == fp && v.trust == trust && v.onArrival
    }

    /** askPair up to its wait: an answer, a refusal, or a request that now waits. */
    method AskPair(fp: Fp, waits: bool, hook: bool) returns (outcome: Outcome)
      requires Linked()
      modifies this
      ensures Abs() == DoDial(old(Abs()), fp, waits, hook) && Linked()
      ensures outcome.TooMany? ==> |refused| > |old(refused)|
      ensures outcome.Answered? ==> Answers(fp, outcome.trust) && fp !in pairs
      ensures !outcome.Answered? ==> verdicts == old(verdicts)
      ensures outcome.TooMany? ==> fp !in pairs && entries == old(entries)
      ensures outcome.Reported? && outcome.report ==> hook && notified == Claim(old(notified), fp, now)
      ensures outcome.Reported? ==> fp in pairs && outcome.hasFrontend == (waits && frontends > 0)
    {
      PruneExpiredPairsLocked();
      outcome := AskPruned(fp, waits, hook);
    }

    method AskPruned(fp: Fp, waits: bool, hook: bool) returns (outcome: Outcome)
      requires Linked()
      modifies this
      ensures Abs() == DialOn(old(Abs()), fp, waits, hook) && Linked()
      ensures outcome.TooMany? ==> |refused| > |old(refused)|
      ensures outcome.Answered? ==> Answers(fp, outcome.trust) && fp !in pairs
      ensures !outcome.Answered? ==> verdicts == old(verdicts)
      ensures outcome.TooMany? ==> fp !in pairs && entries == old(entries)
      ensures outcome.Reported? && outcome.report ==> hook && notified == Claim(old(notified), fp, now)
      ensures outcome.Reported? ==> fp in pairs && outcome.hasFrontend == (waits && frontends > 0)
    {
      if fp in pairs && entries[pairs[fp]].decided {
        var trust := CollectOnArrival(fp);
        return Answered(trust);
      }
      var report := false;
      if fp in pairs {
        Refresh(fp);
      } else {
        var n := UndecidedPairsLocked();
        if n >= MAX_PENDING {
          refused := refused + [nextDial];
          nextDial := nextDial + 1;
          return TooMany;
        }
        Enlist(fp);
        if hook {
          report := ClaimPairNotifyLocked(fp);
        }
      }
      var hasFrontend := AwaitVerdict(fp, waits);
      return Reported(hasFrontend, report);
    }

    /** A waiting dial whose entry has been decided. */
    method Collect(dial: nat, id: nat) returns (trust: bool)
      requires id in entries && entries[id].decided && Linked()
      requires dial in waiting && waiting[dial] == id
      modifies this`pairs, this`waiting, this`verdicts
      ensures Abs() == DoCollect(old(Abs()), dial) && Linked()
      ensures trust == entries[id].trust
      ensures verdicts == old(verdicts) + [Verdict(dial, entries[id].fp, id, trust, now, false)]
      ensures pairs == map fp | fp in old(pairs) && !(fp == entries[id].fp && old(pairs)[fp] == id) :: old(pairs)[fp]
      ensures waiting == old(waiting) - {dial}
    {
      trust := entries[id].trust;
      var fp := entries[id].fp;
      if fp in pairs && pairs[fp] == id {
        pairs := pairs - {fp};
      }
      waiting := waiting - {dial};
      verdicts := verdicts + [Verdict(dial, fp, id, trust, now, false)];
    }

    /** The entry's own answer, and how much longer it can be collected. */
    method Close(id: nat, fp: Fp, trust: bool)
      requires id in entries && Linked()
      modifies this`entries, this`decisions
      ensures Linked()
      ensures var d := Decision(id, fp, trust, now);
              Abs() == Decided(old(Abs()), id, d, if trust then now + PAIR_TTL else old(entries[id].expires))
    {
      ghost var was := entries;
      entries := entries[id := entries[id].(decided := true, trust := trust)];
      decisions := decisions + [Decision(id, fp, trust, now)];
      if trust {
        entries := entries[id := entries[id].(expires := now + PAIR_TTL)];
        assert entries == was[id := entries[id]];
      }
    }

    method DecidePair(fp: Fp, trust: bool) returns (taken: bool)
      requires Linked()
      modifies this`pairs, this`entries, this`decisions
      ensures (Abs(), taken) == DoDecide(old(Abs()), fp, trust) && Linked()
    {
      PruneExpiredPairsLocked();
      if fp !in pairs || entries[pairs[fp]].decided {
        return false;
      }
      var id := pairs[fp];
      assert id in entries;
      if !trust {
        pairs := pairs - {fp};
      }
      Close(id, fp, trust);
      return true;
    }
  }
}
