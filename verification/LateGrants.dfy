/** One-shot grants for approvals that arrived late. Requests find a grant, run their
    own checks and only then spend it, concurrently with installs, questions asked and
    the clock. Labels and tokens of commands come from the policy engine; they differ
    exactly on scripts. */
module LateGrants {
  import opened Common

  const MAX_GRANTS: nat := 32
  const MAX_SCRIPTS: nat := 64
  const SCRIPT_TTL: nat := 24 * 60 * 60

  datatype Kind = Exec | ExecElevated | Read | Write | Logs | OtherKind(name: string)

  /** What a grant lets through. */
  datatype Slot = Slot(kind: Kind, fp: string, key: string, cwd: string)

  datatype Grant = Grant(id: nat, slot: Slot, expires: int)

  /** An approval that was installed: the grant it made, when, and for how long. */
  datatype Record = Record(grant: nat, slot: Slot, at: int, window: nat)

  datatype Script = Script(kind: Kind, fp: string, shown: string, token: string, at: int)

  /** The grants and remembered scripts, the clock, and the history. found holds, for
      each request between finding a grant and spending it, the grant it found. */
  datatype State = State(grants: seq<Grant>, scripts: seq<Script>, nextId: nat, now: int,
                         found: map<nat, Grant>, installs: seq<Record>, uses: seq<Use>)

  datatype Use = Use(who: nat, grant: Grant, at: int)

  predicate Execution(kind: Kind) {
    kind.Exec? || kind.ExecElevated?
  }

  function Keep<T>(s: seq<T>, p: T -> bool): seq<T> {
    if s == [] then []
    else if p(s[|s| - 1]) then Keep(s[..|s| - 1], p) + [s[|s| - 1]]
    else Keep(s[..|s| - 1], p)
  }

  lemma {:induction false} KeepSelects<T>(s: seq<T>, p: T -> bool)
    ensures forall x :: x in Keep(s, p) <==> x in s && p(x)
    ensures |Keep(s, p)| <= |s|
  {
    if s != [] {
      KeepSelects(s[..|s| - 1], p);
    }
  }

  function Unexpired(now: int): Grant -> bool {
    (g: Grant) => now < g.expires
  }

  function Recent(now: int): Script -> bool {
    (x: Script) => now - x.at < SCRIPT_TTL
  }

  function Prune(s: State): State {
    s.(grants := Keep(s.grants, Unexpired(s.now)), scripts := Keep(s.scripts, Recent(s.now)))
  }

  predicate Labelled(x: Script, kind: Kind, fp: string, shown: string) {
    x.kind == kind && x.fp == fp && x.shown == shown
  }

  /** resolveLocked's scan: the token so far, or None once two of them disagreed. */
  function Resolve(scripts: seq<Script>, kind: Kind, fp: string, shown: string, token: string): Option<string> {
    if scripts == [] then Some(if token == "" then shown else token)
    else if !Labelled(scripts[0], kind, fp, shown) then Resolve(scripts[1..], kind, fp, shown, token)
    else if token != "" && token != scripts[0].token then None
    else Resolve(scripts[1..], kind, fp, shown, scripts[0].token)
  }

  datatype InstallError = NeedsLabel | NoLabelForLogs | UnknownKind | BadFingerprint | NoApprover
                        | NoDirectory | Ambiguous | Installed

  /** What install refuses before it takes the lock. The transport decides which
      fingerprints are valid, the file system which directories are canonical. */
  function Refusal(kind: Kind, shown: string, fpValid: bool, approver: string, canonical: bool): InstallError {
    if kind.OtherKind? then UnknownKind
    else if !kind.Logs? && shown == "" then NeedsLabel
    else if kind.Logs? && shown != "" then NoLabelForLogs
    else if !fpValid then BadFingerprint
    else if approver == "" then NoApprover
    else if Execution(kind) && !canonical then NoDirectory
    else Installed
  }

  function OtherSlot(q: Slot): Grant -> bool {
    (g: Grant) => g.slot != q
  }

  function OtherId(id: nat): Grant -> bool {
    (g: Grant) => g.id != id
  }

  function Bounded<T>(s: seq<T>, max: nat): seq<T> {
    if |s| >= max && s != [] then s[1..] else s
  }

  function Pushed(s: State, left: seq<Grant>, q: Slot, window: nat): State {
    s.(grants := left + [Grant(s.nextId, q, s.now + window)], nextId := s.nextId + 1,
       installs := s.installs + [Record(s.nextId, q, s.now, window)])
  }

  /** The new grant takes the place of one for the same request, or of the oldest if there
      are too many. */
  function Replaced(s: State, q: Slot, window: nat): State {
    Pushed(s, Bounded(Keep(s.grants, OtherSlot(q)), MAX_GRANTS), q, window)
  }

  function DoInstall(s0: State, kind: Kind, shown: string, fp: string, cwd: string, window: nat)
    : (State, InstallError)
  {
    var s := Prune(s0);
    var key := if Execution(kind) then Resolve(s.scripts, kind, fp, shown, "") else Some(shown);
    if key.None? then (s, Ambiguous)
    else
      var q := Slot(kind, fp, key.value, if Execution(kind) then cwd else "");
      (Replaced(s, q, window), Installed)
  }

  function OtherScript(kind: Kind, fp: string, token: string): Script -> bool {
    (x: Script) => !(x.kind == kind && x.fp == fp && x.token == token)
  }

  /** asked: remembers a script whose card is about to show only its label. */
  function DoAsked(s0: State, kind: Kind, fp: string, shown: string, token: string): State {
    if !Execution(kind) || shown == token then s0
    else
      var s := Prune(s0);
      s.(scripts := Bounded(Keep(s.scripts, OtherScript(kind, fp, token)), MAX_SCRIPTS)
                    + [Script(kind, fp, shown, token, s.now)])
  }

  function FindSlot(grants: seq<Grant>, q: Slot): Option<Grant> {
    if grants == [] then None else if grants[0].slot == q then Some(grants[0]) else FindSlot(grants[1..], q)
  }

  /** A request as the grants see it; key is the whole command, its token, or the path. */
  predicate Findable(q: Slot) {
    !q.kind.OtherKind? && q.fp != "" && (Execution(q.kind) ==> q.cwd != "")
  }

  function DoFind(s0: State, who: nat, q: Slot): State {
    if !Findable(q) then s0
    else
      var s := Prune(s0);
      var g := FindSlot(s.grants, q);
      if g.None? then s else s.(found := s.found[who := g.value])
  }

  /** take: true when the grant was still there, unexpired and unspent. */
  function DoTake(s: State, who: nat, g: Grant): (State, bool) {
    Taken(Prune(s), who, g)
  }

  /** take, behind its pruning. */
  function Taken(s: State, who: nat, g: Grant): (State, bool) {
    var left := Keep(s.grants, OtherId(g.id));
    if |left| < |s.grants| then (s.(grants := left, uses := s.uses + [Use(who, g, s.now)]), true)
    else (s.(grants := left), false)
  }

  datatype Step =
    | Tick(seconds: nat)
    | Install(kind: Kind, shown: string, fp: string, cwd: string, window: nat)
    | Asked(kind: Kind, fp: string, shown: string, token: string)
    | Find(who: nat, slot: Slot)
    | ChecksFail(who: nat)
    | Take(who: nat)

  function Apply(s: State, step: Step): State {
    match step
    case Tick(seconds) => s.(now := s.now + seconds)
    case Install(kind, shown, fp, cwd, window) => DoInstall(s, kind, shown, fp, cwd, window).0
    case Asked(kind, fp, shown, token) => DoAsked(s, kind, fp, shown, token)
    case Find(who, q) => DoFind(s, who, q)
    case ChecksFail(who) => s.(found := s.found - {who})
    case Take(who) =>
      if who !in s.found then s
      else DoTake(s, who, s.found[who]).0.(found := s.found - {who})
  }

  function Run(s: State, steps: seq<Step>): State
    decreases |steps|
  {
    if steps == [] then s else Run(Apply(s, steps[0]), steps[1..])
  }

  const INITIAL := State([], [], 0, 0, map[], [], [])

  // ---------- conservation ----------

  function Live(grants: seq<Grant>, q: Slot): nat {
    if grants == [] then 0 else Live(grants[..|grants| - 1], q) + (if grants[|grants| - 1].slot == q then 1 else 0)
  }

  function Spent(uses: seq<Use>, q: Slot): nat {
    if uses == [] then 0 else Spent(uses[..|uses| - 1], q) + (if uses[|uses| - 1].grant.slot == q then 1 else 0)
  }

  function Made(installs: seq<Record>, q: Slot): nat {
    if installs == [] then 0
    else Made(installs[..|installs| - 1], q) + (if installs[|installs| - 1].slot == q then 1 else 0)
  }

  ghost predicate Distinct(grants: seq<Grant>) {
    forall i, j :: 0 <= i < j < |grants| ==> grants[i].id != grants[j].id && grants[i].slot != grants[j].slot
  }

  ghost predicate Issued(s: State, g: Grant) {
    && g.id < s.nextId
    && forall h :: h in s.grants && h.id == g.id ==> h == g
  }

  /** Of the approvals installed for q, some were used, some are live, some were dropped. */
  ghost predicate Conserved(s: State, q: Slot) {
    Spent(s.uses, q) + Live(s.grants, q) <= Made(s.installs, q)
  }

  ghost predicate Shape(s: State) {
    && Distinct(s.grants) && |s.grants| <= MAX_GRANTS && |s.scripts| <= MAX_SCRIPTS
    && (forall g :: g in s.grants ==> g.id < s.nextId)
    && (forall who :: who in s.found ==> Issued(s, s.found[who]))
    && (forall u :: u in s.uses ==> u.at < u.grant.expires)
  }

  ghost predicate Inv(s: State) {
    Shape(s) && forall q :: Conserved(s, q)
  }

  lemma {:induction false} KeepDistinct(grants: seq<Grant>, p: Grant -> bool)
    requires Distinct(grants)
    ensures Distinct(Keep(grants, p))
  {
    if grants != [] {
      var front, last := grants[..|grants| - 1], grants[|grants| - 1];
      KeepDistinct(front, p);
      KeepSelects(front, p);
      assert forall x :: x in front ==> x.id != last.id && x.slot != last.slot;
      var kept := Keep(front, p);
      assert forall i :: 0 <= i < |kept| ==> kept[i] in front;
    }
  }

  lemma LiveSnoc(kept: seq<Grant>, last: Grant, q: Slot)
    ensures Live(kept + [last], q) == Live(kept, q) + (if last.slot == q then 1 else 0)
  {
    assert (kept + [last])[..|kept|] == kept;
  }

  lemma {:induction false} KeepLive(grants: seq<Grant>, p: Grant -> bool, q: Slot)
    ensures Live(Keep(grants, p), q) <= Live(grants, q)
  {
    if grants != [] {
      var front, last := grants[..|grants| - 1], grants[|grants| - 1];
      KeepLive(front, p, q);
      LiveSnoc(Keep(front, p), last, q);
    }
  }

  lemma {:induction false} DropLive(grants: seq<Grant>, p: Grant -> bool, g: Grant)
    requires g in grants && !p(g)
    ensures Live(Keep(grants, p), g.slot) < Live(grants, g.slot)
  {
    var front, last := grants[..|grants| - 1], grants[|grants| - 1];
    KeepLive(front, p, g.slot);
    LiveSnoc(Keep(front, p), last, g.slot);
    if g != last {
      assert g in front;
      DropLive(front, p, g);
    }
  }

  lemma {:induction false} NoneLive(grants: seq<Grant>, q: Slot)
    requires forall g :: g in grants ==> g.slot != q
    ensures Live(grants, q) == 0
  {
    if grants != [] {
      NoneLive(grants[..|grants| - 1], q);
    }
  }

  lemma {:induction false} TailLive(grants: seq<Grant>, q: Slot)
    requires grants != []
    ensures Live(grants[1..], q) <= Live(grants, q)
  {
    if |grants| > 1 {
      TailLive(grants[..|grants| - 1], q);
      assert grants[1..][..|grants| - 2] == grants[..|grants| - 1][1..];
    }
  }

  lemma PruneInv(s: State)
    requires Inv(s)
    ensures Inv(Prune(s)) && forall g :: g in Prune(s).grants ==> s.now < g.expires
  {
    var t := Prune(s);
    KeepSelects(s.grants, Unexpired(s.now));
    KeepSelects(s.scripts, Recent(s.now));
    KeepDistinct(s.grants, Unexpired(s.now));
    forall q ensures Conserved(t, q) {
      assert Conserved(s, q);
      KeepLive(s.grants, Unexpired(s.now), q);
    }
  }

  lemma PushShape(s: State, left: seq<Grant>, q: Slot, window: nat)
    requires Shape(s) && Distinct(left) && |left| < MAX_GRANTS
    requires forall g :: g in left ==> g in s.grants && g.slot != q
    ensures Shape(Pushed(s, left, q, window))
  {
    var t := Pushed(s, left, q, window);
    assert forall i :: 0 <= i < |left| ==> left[i] in s.grants;
    forall who | who in t.found ensures Issued(t, t.found[who]) {
      assert Issued(s, s.found[who]);
    }
  }

  lemma PushConserves(s: State, left: seq<Grant>, q: Slot, window: nat, x: Slot)
    requires Conserved(s, x) && Live(left, x) <= Live(s.grants, x)
    requires forall g :: g in left ==> g.slot != q
    ensures Conserved(Pushed(s, left, q, window), x)
  {
    var t := Pushed(s, left, q, window);
    assert t.grants[..|left|] == left && t.installs[..|s.installs|] == s.installs;
    NoneLive(left, q);
  }

  lemma InstallInv(s0: State, kind: Kind, shown: string, fp: string, cwd: string, window: nat)
    requires Inv(s0)
    ensures Inv(DoInstall(s0, kind, shown, fp, cwd, window).0)
  {
    PruneInv(s0);
    var s := Prune(s0);
    var key := if Execution(kind) then Resolve(s.scripts, kind, fp, shown, "") else Some(shown);
    if key.Some? {
      ReplaceInv(s, Slot(kind, fp, key.value, if Execution(kind) then cwd else ""), window);
    }
  }

  lemma ReplaceInv(s: State, q: Slot, window: nat)
    requires Inv(s)
    ensures Inv(Replaced(s, q, window))
  {
    var kept := Keep(s.grants, OtherSlot(q));
    var left := Bounded(kept, MAX_GRANTS);
    KeepSelects(s.grants, OtherSlot(q));
    KeepDistinct(s.grants, OtherSlot(q));
    assert forall g :: g in left ==> g in kept;
    PushShape(s, left, q, window);
    forall x ensures Conserved(Pushed(s, left, q, window), x) {
      assert Conserved(s, x);
      KeepLive(s.grants, OtherSlot(q), x);
      if |kept| >= MAX_GRANTS { TailLive(kept, x); }
      PushConserves(s, left, q, window, x);
    }
  }

  lemma {:induction false} FindSlotFinds(grants: seq<Grant>, q: Slot)
    ensures FindSlot(grants, q).Some? ==> FindSlot(grants, q).value in grants && FindSlot(grants, q).value.slot == q
    ensures FindSlot(grants, q).None? ==> forall g :: g in grants ==> g.slot != q
  {
    if grants != [] && grants[0].slot != q {
      FindSlotFinds(grants[1..], q);
    }
  }

  /** Steps that touch no grant keep the books. */
  lemma SameBooks(s: State, t: State)
    requires Inv(s) && t.grants == s.grants && t.nextId == s.nextId && t.installs == s.installs && t.uses == s.uses
    requires |t.scripts| <= MAX_SCRIPTS && forall who :: who in t.found ==> Issued(s, t.found[who])
    ensures Inv(t)
  {
    forall q ensures Conserved(t, q) {
      assert Conserved(s, q);
    }
    forall who | who in t.found ensures Issued(t, t.found[who]) {
      assert Issued(s, t.found[who]);
    }
  }

  lemma FindInv(s0: State, who: nat, q: Slot)
    requires Inv(s0)
    ensures Inv(DoFind(s0, who, q))
  {
    if Findable(q) {
      PruneInv(s0);
      var s := Prune(s0);
      FindSlotFinds(s.grants, q);
      if FindSlot(s.grants, q).Some? {
        DistinctIds(s.grants, FindSlot(s.grants, q).value);
        SameBooks(s, s.(found := s.found[who := FindSlot(s.grants, q).value]));
      }
    }
  }

  lemma DistinctIds(grants: seq<Grant>, g: Grant)
    requires Distinct(grants) && g in grants
    ensures forall h :: h in grants && h.id == g.id ==> h == g
  {}

  lemma {:induction false} KeptAll<T>(s: seq<T>, p: T -> bool)
    ensures |Keep(s, p)| == |s| <==> forall x :: x in s ==> p(x)
  {
    if s != [] {
      KeptAll(s[..|s| - 1], p);
      KeepSelects(s[..|s| - 1], p);
    }
  }

  /** A grant that is taken is one that was live, unexpired, and is live no more. */
  lemma TakeInv(s0: State, who: nat, g: Grant)
    requires Inv(s0) && Issued(s0, g)
    ensures Inv(DoTake(s0, who, g).0)
    ensures DoTake(s0, who, g).1 <==> g in s0.grants && s0.now < g.expires
    ensures g !in DoTake(s0, who, g).0.grants
  {
    PruneInv(s0);
    KeepSelects(s0.grants, Unexpired(s0.now));
    TakePruned(Prune(s0), who, g);
  }

  lemma TakePruned(s: State, who: nat, g: Grant)
    requires Inv(s) && Issued(s, g) && forall h :: h in s.grants ==> s.now < h.expires
    ensures Inv(Taken(s, who, g).0)
    ensures Taken(s, who, g).1 <==> g in s.grants
    ensures g !in Taken(s, who, g).0.grants
  {
    var (t, ok) := Taken(s, who, g);
    KeepSelects(s.grants, OtherId(g.id));
    KeepDistinct(s.grants, OtherId(g.id));
    KeptAll(s.grants, OtherId(g.id));
    forall q ensures Conserved(t, q) {
      TakeConserves(s, who, g, q);
    }
  }

  lemma TakeConserves(s: State, who: nat, g: Grant, q: Slot)
    requires Conserved(s, q) && Issued(s, g)
    ensures Conserved(Taken(s, who, g).0, q)
  {
    KeepLive(s.grants, OtherId(g.id), q);
    KeptAll(s.grants, OtherId(g.id));
    if Taken(s, who, g).1 {
      SpentSnoc(s.uses, Use(who, g, s.now), q);
      DropLive(s.grants, OtherId(g.id), g);
    }
  }

  lemma SpentSnoc(uses: seq<Use>, u: Use, q: Slot)
    ensures Spent(uses + [u], q) == Spent(uses, q) + (if u.grant.slot == q then 1 else 0)
  {
    assert (uses + [u])[..|uses|] == uses;
  }

  lemma InvKept(s: State, step: Step)
    requires Inv(s)
    ensures Inv(Apply(s, step))
  {
    match step
    case Tick(_) => SameBooks(s, Apply(s, step));
    case Install(kind, shown, fp, cwd, window) => InstallInv(s, kind, shown, fp, cwd, window);
    case Asked(kind, fp, shown, token) =>
      PruneInv(s);
      KeepSelects(Prune(s).scripts, OtherScript(kind, fp, token));
      if Execution(kind) && shown != token { SameBooks(Prune(s), Apply(s, step)); }
    case Find(who, q) => FindInv(s, who, q);
    case ChecksFail(_) => SameBooks(s, Apply(s, step));
    case Take(who) =>
      if who in s.found {
        TakeInv(s, who, s.found[who]);
        SameBooks(DoTake(s, who, s.found[who]).0, Apply(s, step));
      }
  }

  lemma {:induction false} InvAlways(s: State, steps: seq<Step>)
    requires Inv(s)
    ensures Inv(Run(s, steps))
    decreases |steps|
  {
    if steps != [] {
      InvKept(s, steps[0]);
      InvAlways(Apply(s, steps[0]), steps[1..]);
    }
  }

  predicate By(step: Step, me: nat) {
    (step.Find? || step.ChecksFail? || step.Take?) && step.who == me
  }

  /** What a request has found stays with it while the others move. */
  lemma {:induction false} MineStays(s: State, steps: seq<Step>, me: nat)
    requires me in s.found && forall step :: step in steps ==> !By(step, me)
    ensures var t := Run(s, steps); me in t.found && t.found[me] == s.found[me]
    decreases |steps|
  {
    if steps != [] {
      assert !By(steps[0], me);
      var t := Apply(s, steps[0]);
      assert me in t.found && t.found[me] == s.found[me];
      MineStays(t, steps[1..], me);
    }
  }

  /** In every concurrent run the late approvals of a request never outnumber its
      installs, each came before its grant expired, no two live grants are for the same
      request, and no more than 32 are held. */
  lemma OneShot(steps: seq<Step>)
    ensures var t := Run(INITIAL, steps);
            && Distinct(t.grants) && |t.grants| <= MAX_GRANTS && |t.scripts| <= MAX_SCRIPTS
            && (forall u :: u in t.uses ==> u.at < u.grant.expires)
            && forall q :: Spent(t.uses, q) + Live(t.grants, q) <= Made(t.installs, q)
  {
    InvAlways(INITIAL, steps);
    var t := Run(INITIAL, steps);
    forall q ensures Spent(t.uses, q) + Live(t.grants, q) <= Made(t.installs, q) {
      assert Conserved(t, q);
    }
  }

  // ---------- which request a grant releases ----------

  /** A label resolves to the token of the scripts it was asked for; to itself when it
      names none; and to nothing exactly when it names two different ones. */
  lemma {:induction false} ResolveExactly(scripts: seq<Script>, kind: Kind, fp: string, shown: string, token: string)
    requires forall x :: x in scripts ==> x.token != ""
    ensures var r := Resolve(scripts, kind, fp, shown, token);
      && (r.None? <==>
            || (exists x, y :: x in scripts && y in scripts && x.token != y.token
                               && Labelled(x, kind, fp, shown) && Labelled(y, kind, fp, shown))
            || (token != "" && exists x :: x in scripts && Labelled(x, kind, fp, shown) && x.token != token))
      && (r.Some? ==> forall x :: x in scripts && Labelled(x, kind, fp, shown) ==> r.value == x.token)
      && (r.Some? && token != "" ==> r.value == token)
      && (r.Some? && token == "" && (forall x :: x in scripts ==> !Labelled(x, kind, fp, shown)) ==> r.value == shown)
  {
    if scripts != [] {
      var first, rest := scripts[0], scripts[1..];
      assert forall x :: x in scripts <==> x == first || x in rest;
      if !Labelled(first, kind, fp, shown) {
        ResolveExactly(rest, kind, fp, shown, token);
      } else if token == "" || token == first.token {
        ResolveExactly(rest, kind, fp, shown, first.token);
      }
    }
  }

  /** An installed grant for a remembered script carries that script's whole token, and
      no other script of the controller is remembered under the same label. */
  lemma ScriptGrantIsWhole(s: State, kind: Kind, shown: string, fp: string, cwd: string, window: nat, x: Script)
    requires Execution(kind) && DoInstall(s, kind, shown, fp, cwd, window).1 == Installed
    requires x in Prune(s).scripts && Labelled(x, kind, fp, shown)
    requires forall y :: y in s.scripts ==> y.token != ""
    ensures var t := DoInstall(s, kind, shown, fp, cwd, window).0;
            && t.grants[|t.grants| - 1].slot == Slot(kind, fp, x.token, cwd)
            && forall y :: y in t.scripts && Labelled(y, kind, fp, shown) ==> y.token == x.token
  {
    KeepSelects(s.scripts, Recent(s.now));
    ResolveExactly(Prune(s).scripts, kind, fp, shown, "");
  }

  /** What a request finds is a live grant for exactly that request. */
  lemma FindsItsOwn(s: State, who: nat, q: Slot)
    requires Findable(q) && who !in s.found
    ensures var t := DoFind(s, who, q);
            && (who in t.found <==> exists g :: g in s.grants && g.slot == q && s.now < g.expires)
            && (who in t.found ==> t.found[who].slot == q && t.found[who] in s.grants && s.now < t.found[who].expires)
  {
    KeepSelects(s.grants, Unexpired(s.now));
    FindSlotFinds(Prune(s).grants, q);
  }

  /** Whatever a step does, it makes at most one use, by the request that takes. */
  lemma OnlyTakerUses(s: State, step: Step, who: nat)
    requires who !in s.found && !(step.Find? && step.who == who)
    ensures var t := Apply(s, step); who !in t.found && (t.uses == s.uses || UsedByOther(s.uses, t.uses, who))
  {}

  ghost predicate UsedByOther(before: seq<Use>, now: seq<Use>, who: nat) {
    now != [] && now[..|now| - 1] == before && now[|now| - 1].who != who
  }

  ghost predicate NoUseBy(before: seq<Use>, now: seq<Use>, who: nat) {
    before <= now && forall i :: |before| <= i < |now| ==> now[i].who != who
  }

  lemma {:induction false} NoUseWithoutFind(s: State, steps: seq<Step>, who: nat)
    requires who !in s.found && forall step :: step in steps ==> !(step.Find? && step.who == who)
    ensures NoUseBy(s.uses, Run(s, steps).uses, who)
    decreases |steps|
  {
    if steps != [] {
      var t := Apply(s, steps[0]);
      assert steps[0] in steps;
      OnlyTakerUses(s, steps[0], who);
      assert forall step :: step in steps[1..] ==> step in steps;
      NoUseWithoutFind(t, steps[1..], who);
    }
  }

  /** A request whose checks failed uses no grant in any continuation, unless it asks again;
      and it leaves every grant to whoever finds it next. */
  lemma FailedChecksSpendNothing(s: State, who: nat, steps: seq<Step>)
    requires forall step :: step in steps ==> !(step.Find? && step.who == who)
    ensures var t := Apply(s, ChecksFail(who));
            t.grants == s.grants && t.uses == s.uses && NoUseBy(s.uses, Run(t, steps).uses, who)
  {
    NoUseWithoutFind(Apply(s, ChecksFail(who)), steps, who);
  }
}
