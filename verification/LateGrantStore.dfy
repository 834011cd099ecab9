/** The store of late grants as an object, the use of a grant around a request's own
    checks, and the gate that tries a grant before it asks anybody. */
module LateGrantStore {
  import opened Common
  import opened LateGrants

  datatype Decision = Bypass | PreApproved | LateApproved | DelegationInactive | DeniedByOwner | Approved | Remembered

  /** The approver's answer: a yes or a no, and whether to remember a rule. */
  datatype Answer = Answer(allow: bool, remember: bool)

  /** The grant that find returns for a request. */
  function Found(s: State, q: Slot): Option<Grant> {
    if Findable(q) then FindSlot(Prune(s).grants, q) else None
  }

  /** That is a live grant for this very request, and there is one exactly when find may look. */
  lemma FoundExactly(s: State, q: Slot)
    ensures Found(s, q).Some? ==> var g := Found(s, q).value; g in s.grants && g.slot == q && s.now < g.expires
    ensures Found(s, q).Some? <==>
            && !q.kind.OtherKind? && q.fp != "" && (q.kind.Exec? || q.kind.ExecElevated? ==> q.cwd != "")
            && exists g :: g in s.grants && g.slot == q && s.now < g.expires
  {
    KeepSelects(s.grants, Unexpired(s.now));
    FindSlotFinds(Prune(s).grants, q);
  }

  /** Nobody has spent the grant, and it has not expired. */
  predicate Usable(s: State, g: Grant) {
    g in s.grants && s.now < g.expires
  }

  /** What a request has found is still its own, and its slot's, when the others have moved. */
  lemma FindThenOthers(s: State, me: nat, q: Slot, others: seq<Step>)
    requires Inv(s) && me !in s.found && forall step :: step in others ==> !By(step, me)
    ensures Inv(DoFind(s, me, q))
    ensures Found(s, q).Some? ==>
      var g, t := Found(s, q).value, Run(DoFind(s, me, q), others);
      Inv(t) && Issued(t, g) && g.slot == q
  {
    InvKept(s, Find(me, q));
    if Found(s, q).Some? {
      FindSlotFinds(Prune(s).grants, q);
      InvAlways(DoFind(s, me, q), others);
      MineStays(DoFind(s, me, q), others, me);
    }
  }

  class Store {
    var grants: seq<Grant>
    var scripts: seq<Script>
    var nextId: nat
    var now: int
    ghost var installs: seq<Record>
    ghost var uses: seq<Use>

    /** The store's state, with the grants that requests in progress have found. */
    ghost function Abs(found: map<nat, Grant>): State
      reads this
    {
      State(grants, scripts, nextId, now, found, installs, uses)
    }

    constructor ()
      ensures Abs(map[]) == INITIAL
    {
      grants, scripts, nextId, now, installs, uses := [], [], 0, 0, [], [];
    }

    method PruneLocked()
      modifies this`grants, this`scripts
      ensures Abs(map[]) == Prune(old(Abs(map[])))
    {
      grants := Keep(grants, Unexpired(now));
      scripts := Keep(scripts, Recent(now));
    }

    method ResolveLocked(kind: Kind, fp: string, shown: string) returns (key: Option<string>)
      ensures key == Resolve(scripts, kind, fp, shown, "")
    {
      var token := "";
      for i := 0 to |scripts|
        invariant Resolve(scripts[i..], kind, fp, shown, token) == Resolve(scripts, kind, fp, shown, "")
      {
        assert scripts[i..][0] == scripts[i] && scripts[i..][1..] == scripts[i + 1..];
        if scripts[i].kind != kind || scripts[i].fp != fp || scripts[i].shown != shown {
          continue;
        }
        if token != "" && token != scripts[i].token {
          return None;
        }
        token := scripts[i].token;
      }
      return Some(if token == "" then shown else token);
    }

    /** The locked part of install. */
    method InstallLocked(kind: Kind, shown: string, fp: string, cwd: string, window: nat) returns (err: InstallError)
      modifies this
      ensures (Abs(map[]), err) == DoInstall(old(Abs(map[])), kind, shown, fp, cwd, window)
      ensures err != Installed ==> installs == old(installs)
      ensures err == Installed ==>
        && |grants| > 0 && grants[|grants| - 1].expires == now + window && grants[|grants| - 1].slot.kind == kind
        && grants[|grants| - 1].slot.fp == fp
        && installs == old(installs) + [Record(old(nextId), grants[|grants| - 1].slot, now, window)]
    {
      PruneLocked();
      var key := Some(shown);
      if Execution(kind) {
        key := ResolveLocked(kind, fp, shown);
        if key.None? { return Ambiguous; }
      }
      var q := Slot(kind, fp, key.value, if Execution(kind) then cwd else "");
      Put(q, window);
      err := Installed;
    }

    method Put(q: Slot, window: nat)
      modifies this`grants, this`nextId, this`installs
      ensures Abs(map[]) == Replaced(old(Abs(map[])), q, window)
    {
      grants := Keep(grants, OtherSlot(q));
      if |grants| >= MAX_GRANTS {
        grants := grants[1..];
      }
      grants := grants + [Grant(nextId, q, now + window)];
      installs := installs + [Record(nextId, q, now, window)];
      nextId := nextId + 1;
    }

    method Install(kind: Kind, shown: string, fp: string, fpValid: bool, approver: string,
                   cwd: string, canonical: bool, window: nat) returns (err: InstallError)
      modifies this
      ensures var refusal := Refusal(kind, shown, fpValid, approver, canonical);
              if refusal != Installed then err == refusal && Abs(map[]) == old(Abs(map[]))
              else (Abs(map[]), err) == DoInstall(old(Abs(map[])), kind, shown, fp, cwd, window)
    {
      err := Refusal(kind, shown, fpValid, approver, canonical);
      if err == Installed {
        err := InstallLocked(kind, shown, fp, cwd, window);
      }
    }

    method AskedAbout(kind: Kind, fp: string, shown: string, token: string)
      modifies this
      ensures Abs(map[]) == DoAsked(old(Abs(map[])), kind, fp, shown, token)
    {
      if !Execution(kind) || shown == token { return; }
      PruneLocked();
      scripts := Keep(scripts, OtherScript(kind, fp, token));
      if |scripts| >= MAX_SCRIPTS {
        scripts := scripts[1..];
      }
      scripts := scripts + [Script(kind, fp, shown, token, now)];
    }

    method FindGrant(q: Slot) returns (g: Option<Grant>)
      modifies this`grants, this`scripts
      ensures if Findable(q) then Abs(map[]) == Prune(old(Abs(map[]))) && g == FindSlot(grants, q)
              else Abs(map[]) == old(Abs(map[])) && g == None
    {
      if q.kind.OtherKind? || q.fp == "" || (Execution(q.kind) && q.cwd == "") {
        return None;
      }
      PruneLocked();
      for i := 0 to |grants|
        invariant FindSlot(grants[i..], q) == FindSlot(grants, q)
      {
        assert grants[i..][0] == grants[i] && grants[i..][1..] == grants[i + 1..];
        if grants[i].slot == q {
          return Some(grants[i]);
        }
      }
      return None;
    }

    method TakeGrant(who: nat, g: Grant) returns (ok: bool)
      modifies this`grants, this`scripts, this`uses
      ensures (Abs(map[]), ok) == DoTake(old(Abs(map[])), who, g)
    {
      PruneLocked();
      var n := |grants|;
      grants := Keep(grants, OtherId(g.id));
      ok := |grants| < n;
      if ok {
        uses := uses + [Use(who, g, now)];
      }
    }

    /** One step of another thread; found is what the requests in progress hold. */
    method StepElsewhere(step: Step, start: map<nat, Grant>) returns (found: map<nat, Grant>)
      modifies this
      ensures Abs(found) == Apply(old(Abs(start)), step)
    {
      found := start;
      match step
      case Tick(seconds) => now := now + seconds;
      case Install(kind, shown, fp, cwd, window) => var _ := InstallLocked(kind, shown, fp, cwd, window);
      case Asked(kind, fp, shown, token) => AskedAbout(kind, fp, shown, token);
      case Find(who, q) =>
        var g := FindGrant(q);
        if g.Some? { found := found[who := g.value]; }
      case ChecksFail(who) => found := found - {who};
      case Take(who) =>
        if who in found {
          var _ := TakeGrant(who, found[who]);
          found := found - {who};
        }
    }

    method Elsewhere(steps: seq<Step>, start: map<nat, Grant>) returns (found: map<nat, Grant>)
      modifies this
      ensures Abs(found) == Run(old(Abs(start)), steps)
    {
      found := start;
      for i := 0 to |steps|
        invariant Run(Abs(found), steps[i..]) == Run(old(Abs(start)), steps)
      {
        assert steps[i..][0] == steps[i] && steps[i..][1..] == steps[i + 1..];
        found := StepElsewhere(steps[i], found);
      }
    }

    /** Since mid, me spent one grant for q, live and unexpired, and it is gone. */
    ghost predicate SpentOne(me: nat, q: Slot, mid: State)
      reads this
    {
      && uses != [] && uses[..|uses| - 1] == mid.uses
      && var last := uses[|uses| - 1];
      && last.grant in mid.grants && last.grant.slot == q && last.who == me && last.at == mid.now < last.grant.expires
      && last.grant !in grants
    }

    /** The rest of useLateGrant: the checks, and then the grant if it is still there. */
    method Spend(me: nat, g: Grant, checksPass: bool, ghost found: map<nat, Grant>)
      returns (ok: bool, decision: Option<Decision>)
      requires Inv(Abs(found)) && Issued(Abs(found), g)
      modifies this
      ensures Inv(Abs(found))
      ensures decision == if !checksPass then Some(DelegationInactive)
                          else if Usable(old(Abs(found)), g) then Some(LateApproved)
                          else None
      ensures ok <==> decision == Some(LateApproved)
      ensures if ok then SpentOne(me, g.slot, old(Abs(found))) else uses == old(uses)
    {
      if !checksPass {
        return false, Some(DelegationInactive);
      }
      TakeInv(Abs(found), me, g);
      ok := TakeGrant(me, g);
      decision := if ok then Some(LateApproved) else None;
    }

    /** useLateGrant by request me, with any run of the other threads between the find
        and the rest. seen is the grant that find returns, mid the state when take's turn
        comes. The grant is spent if and only if the checks pass and it still lives then,
        by the request it was made for, which then may proceed. */
    method UseLateGrant(me: nat, q: Slot, checksPass: bool, others: seq<Step>, start: map<nat, Grant>)
      returns (ok: bool, decision: Option<Decision>, found: map<nat, Grant>,
               ghost seen: Option<Grant>, ghost mid: State)
      requires Inv(Abs(start)) && me !in start && forall step :: step in others ==> !By(step, me)
      modifies this
      ensures Inv(Abs(found)) && Inv(mid) && seen == Found(old(Abs(start)), q)
      ensures decision == if seen.None? then None
                          else if !checksPass then Some(DelegationInactive)
                          else if Usable(mid, seen.value) then Some(LateApproved)
                          else None
      ensures ok <==> decision == Some(LateApproved)
      ensures if ok then SpentOne(me, q, mid) else uses == mid.uses
    {
      seen := Found(Abs(start), q);
      FindThenOthers(Abs(start), me, q, others);
      var g := FindGrant(q);
      if g.None? {
        return false, None, start, seen, Abs(start);
      }
      found := Elsewhere(others, start[me := g.value]);
      mid := Abs(found);
      ok, decision := Spend(me, g.value, checksPass, found);
    }
  }

  /** The script of a request that is about to be asked about is remembered. */
  ghost predicate Remembers(scripts: seq<Script>, q: Slot, shown: string, now: int) {
    Execution(q.kind) && shown != q.key ==>
      scripts != [] && scripts[|scripts| - 1] == Script(q.kind, q.fp, shown, q.key, now)
  }

  /** gate: a bypass or a rule first, then a late grant, and only then the owner. The
      decision is a late approval exactly when a grant found for the request passed its
      checks and still lived when it was taken. */
  method Gate(store: Store, bypass: bool, allowed: bool, me: nat, q: Slot, shown: string, checksBefore: bool,
              checksAfter: bool, answer: Answer, others: seq<Step>, start: map<nat, Grant>)
    returns (ok: bool, decision: Decision, ghost mid: State)
    requires Inv(store.Abs(start)) && me !in start && forall step :: step in others ==> !By(step, me)
    modifies store
    ensures bypass || allowed ==> decision == (if bypass then Bypass else PreApproved) && store.uses == old(store.uses)
    ensures !bypass && !allowed ==>
      var seen := Found(old(store.Abs(start)), q);
      decision == if seen.Some? && !checksBefore then DelegationInactive
                  else if seen.Some? && Usable(mid, seen.value) then LateApproved
                  else if !checksAfter then DelegationInactive
                  else if !answer.allow then DeniedByOwner
                  else if answer.remember then Remembered else Approved
    ensures ok <==> decision in {Bypass, PreApproved, LateApproved, Approved, Remembered}
    ensures decision == LateApproved ==> Inv(mid) && store.SpentOne(me, q, mid)
    ensures decision != LateApproved ==> store.uses == mid.uses
    ensures !bypass && !allowed ==>
      var seen := Found(old(store.Abs(start)), q);
      seen.None? || (checksBefore && !Usable(mid, seen.value)) ==> Remembers(store.scripts, q, shown, store.now)
  {
    mid := store.Abs(start);
    if bypass { return true, Bypass, mid; }
    if allowed { return true, PreApproved, mid; }
    var late, found;
    ghost var seen;
    ok, late, found, seen, mid := store.UseLateGrant(me, q, checksBefore, others, start);
    if late.Some? {
      return ok, late.value, mid;
    }
    store.AskedAbout(q.kind, q.fp, shown, q.key);
    if !checksAfter { return false, DelegationInactive, mid; }
    if !answer.allow { return false, DeniedByOwner, mid; }
    return true, if answer.remember then Remembered else Approved, mid;
  }
}
