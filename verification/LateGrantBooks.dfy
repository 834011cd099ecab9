/** What each use of the store of late grants comes to, told from the store before it, and the
    books over whole runs: every grant is one recorded approval, for its own request and its
    own window, and is used at most once. */
module LateGrantBooks {
  import opened Common
  import opened LateGrants

  // ---------- the books ----------

  /** The approval that made the grant. */
  ghost predicate MadeBy(r: Record, g: Grant) {
    r.grant == g.id && r.slot == g.slot && g.expires == r.at + r.window
  }

  ghost predicate Backed(installs: seq<Record>, g: Grant, now: int) {
    exists r :: r in installs && MadeBy(r, g) && r.at <= now
  }

  /** The use fell into the window of the approval. */
  ghost predicate InWindow(installs: seq<Record>, u: Use) {
    exists r :: r in installs && MadeBy(r, u.grant) && r.at <= u.at < r.at + r.window
  }

  /** Grants are numbered as they are made, and a used one is not live. */
  ghost predicate Numbered(s: State) {
    && (forall i, j :: 0 <= i < j < |s.grants| ==> s.grants[i].id < s.grants[j].id)
    && (forall g :: g in s.grants ==> g.id < s.nextId)
    && (forall i, j :: 0 <= i < j < |s.uses| ==> s.uses[i].grant.id != s.uses[j].grant.id)
    && (forall u :: u in s.uses ==> u.grant.id < s.nextId && forall g :: g in s.grants ==> g.id != u.grant.id)
  }

  ghost predicate Balanced(s: State) {
    && (forall g :: g in s.grants ==> Backed(s.installs, g, s.now))
    && (forall who :: who in s.found ==> Backed(s.installs, s.found[who], s.now))
    && (forall u :: u in s.uses ==> InWindow(s.installs, u))
  }

  ghost predicate Good(s: State) {
    Inv(s) && Numbered(s) && Balanced(s)
  }

  lemma {:induction false} KeepOrder(grants: seq<Grant>, p: Grant -> bool)
    requires forall i, j :: 0 <= i < j < |grants| ==> grants[i].id < grants[j].id
    ensures var kept := Keep(grants, p); forall i, j :: 0 <= i < j < |kept| ==> kept[i].id < kept[j].id
  {
    if grants != [] {
      var front, last := grants[..|grants| - 1], grants[|grants| - 1];
      KeepOrder(front, p);
      KeepSelects(front, p);
      var kept := Keep(front, p);
      forall i | 0 <= i < |kept| ensures kept[i].id < last.id {
        assert kept[i] in front;
      }
    }
  }

  /** Grants that go leave the books in order. */
  lemma FewerGrants(s: State, t: State)
    requires Numbered(s) && Balanced(s) && t == s.(grants := t.grants, scripts := t.scripts)
    requires forall g :: g in t.grants ==> g in s.grants
    requires forall i, j :: 0 <= i < j < |t.grants| ==> t.grants[i].id < t.grants[j].id
    ensures Numbered(t) && Balanced(t)
  {}

  lemma PruneGood(s: State)
    requires Good(s)
    ensures Good(Prune(s)) && forall g :: g in Prune(s).grants <==> g in s.grants && s.now < g.expires
  {
    PruneInv(s);
    KeepSelects(s.grants, Unexpired(s.now));
    KeepOrder(s.grants, Unexpired(s.now));
    FewerGrants(s, Prune(s));
  }

  lemma BackedStays(installs: seq<Record>, more: seq<Record>, g: Grant, now: int, later: int)
    requires Backed(installs, g, now) && now <= later
    ensures Backed(installs + more, g, later)
  {
    var r :| r in installs && MadeBy(r, g) && r.at <= now;
    assert r in installs + more;
  }

  lemma InWindowStays(installs: seq<Record>, more: seq<Record>, u: Use)
    requires InWindow(installs, u)
    ensures InWindow(installs + more, u)
  {
    var r :| r in installs && MadeBy(r, u.grant) && r.at <= u.at < r.at + r.window;
    assert r in installs + more;
  }

  lemma PushBalanced(s: State, left: seq<Grant>, q: Slot, window: nat)
    requires Balanced(s) && forall g :: g in left ==> g in s.grants
    ensures Balanced(Pushed(s, left, q, window))
  {
    var t := Pushed(s, left, q, window);
    var r := Record(s.nextId, q, s.now, window);
    forall g | g in t.grants ensures Backed(t.installs, g, t.now) {
      if g in left {
        BackedStays(s.installs, [r], g, s.now, s.now);
      } else {
        assert r in t.installs && MadeBy(r, g);
      }
    }
    forall who | who in t.found ensures Backed(t.installs, t.found[who], t.now) {
      BackedStays(s.installs, [r], s.found[who], s.now, s.now);
    }
    forall u | u in t.uses ensures InWindow(t.installs, u) {
      InWindowStays(s.installs, [r], u);
    }
  }

  lemma PushNumbered(s: State, left: seq<Grant>, q: Slot, window: nat)
    requires Numbered(s) && forall g :: g in left ==> g in s.grants
    requires forall i, j :: 0 <= i < j < |left| ==> left[i].id < left[j].id
    ensures Numbered(Pushed(s, left, q, window))
  {
    assert forall i :: 0 <= i < |left| ==> left[i] in left;
  }

  lemma ReplacedGood(s: State, q: Slot, window: nat)
    requires Good(s)
    ensures Numbered(Replaced(s, q, window)) && Balanced(Replaced(s, q, window))
  {
    var kept := Keep(s.grants, OtherSlot(q));
    KeepSelects(s.grants, OtherSlot(q));
    KeepOrder(s.grants, OtherSlot(q));
    var left := Bounded(kept, MAX_GRANTS);
    assert forall g :: g in left ==> g in kept;
    PushNumbered(s, left, q, window);
    PushBalanced(s, left, q, window);
  }

  lemma InstallGood(s: State, kind: Kind, shown: string, fp: string, cwd: string, window: nat)
    requires Good(s)
    ensures Numbered(DoInstall(s, kind, shown, fp, cwd, window).0)
    ensures Balanced(DoInstall(s, kind, shown, fp, cwd, window).0)
  {
    PruneGood(s);
    var p := Prune(s);
    var key := if Execution(kind) then Resolve(p.scripts, kind, fp, shown, "") else Some(shown);
    if key.Some? {
      ReplacedGood(p, Slot(kind, fp, key.value, if Execution(kind) then cwd else ""), window);
    }
  }

  lemma TakenGood(s: State, who: nat, g: Grant)
    requires Good(s) && Issued(s, g) && Backed(s.installs, g, s.now) && forall h :: h in s.grants ==> s.now < h.expires
    ensures Numbered(Taken(s, who, g).0) && Balanced(Taken(s, who, g).0)
  {
    var (t, ok) := Taken(s, who, g);
    TakePruned(s, who, g);
    KeepSelects(s.grants, OtherId(g.id));
    KeepOrder(s.grants, OtherId(g.id));
    FewerGrants(s, s.(grants := t.grants));
    if ok { UseGood(s.(grants := t.grants), who, g); }
  }

  lemma UseGood(s: State, who: nat, g: Grant)
    requires Numbered(s) && Balanced(s) && Backed(s.installs, g, s.now) && s.now < g.expires && g.id < s.nextId
    requires (forall h :: h in s.grants ==> h.id != g.id) && forall u :: u in s.uses ==> u.grant.id != g.id
    ensures var t := s.(uses := s.uses + [Use(who, g, s.now)]); Numbered(t) && Balanced(t)
  {
    var r :| r in s.installs && MadeBy(r, g) && r.at <= s.now;
    assert InWindow(s.installs, Use(who, g, s.now));
  }

  lemma TakeGood(s: State, who: nat)
    requires Good(s) && who in s.found
    ensures var t := DoTake(s, who, s.found[who]).0; Numbered(t) && Balanced(t)
  {
    PruneGood(s);
    assert Issued(s, s.found[who]);
    TakenGood(Prune(s), who, s.found[who]);
  }

  lemma FindGood(s: State, who: nat, q: Slot)
    requires Good(s)
    ensures Numbered(DoFind(s, who, q)) && Balanced(DoFind(s, who, q))
  {
    PruneGood(s);
    FindSlotFinds(Prune(s).grants, q);
  }

  lemma TickBalanced(s: State, seconds: nat)
    requires Balanced(s)
    ensures Balanced(s.(now := s.now + seconds))
  {
    var t := s.(now := s.now + seconds);
    assert s.installs + [] == s.installs;
    forall g | g in t.grants ensures Backed(t.installs, g, t.now) {
      BackedStays(s.installs, [], g, s.now, t.now);
    }
    forall who | who in t.found ensures Backed(t.installs, t.found[who], t.now) {
      BackedStays(s.installs, [], s.found[who], s.now, t.now);
    }
  }

  lemma GoodKept(s: State, step: Step)
    requires Good(s)
    ensures Good(Apply(s, step))
  {
    InvKept(s, step);
    match step
    case Tick(seconds) => TickBalanced(s, seconds);
    case Install(kind, shown, fp, cwd, window) => InstallGood(s, kind, shown, fp, cwd, window);
    case Asked(kind, fp, shown, token) => PruneGood(s);
    case Find(who, q) => FindGood(s, who, q);
    case ChecksFail(_) =>
    case Take(who) => if who in s.found { TakeGood(s, who); }
  }

  lemma {:induction false} GoodAlways(s: State, steps: seq<Step>)
    requires Good(s)
    ensures Good(Run(s, steps))
    decreases |steps|
  {
    if steps != [] {
      GoodKept(s, steps[0]);
      GoodAlways(Apply(s, steps[0]), steps[1..]);
    }
  }

  /** In every concurrent run each grant that is live, found or used is that of one recorded
      approval, for its request and until its window is over; no approval is used twice; and
      every use falls between the approval and the end of its window. */
  lemma UsesAreApproved(steps: seq<Step>)
    ensures var t := Run(INITIAL, steps);
            && (forall g :: g in t.grants ==> Backed(t.installs, g, t.now))
            && (forall who :: who in t.found ==> Backed(t.installs, t.found[who], t.now))
            && (forall u :: u in t.uses ==> InWindow(t.installs, u))
            && (forall i, j :: 0 <= i < j < |t.uses| ==> t.uses[i].grant.id != t.uses[j].grant.id)
  {
    GoodAlways(INITIAL, steps);
  }

  // ---------- installing ----------

  /** What install demands, and the first reason to refuse. */
  lemma RefusalExactly(kind: Kind, shown: string, fpValid: bool, approver: string, canonical: bool)
    ensures var r := Refusal(kind, shown, fpValid, approver, canonical);
            && (r == Installed <==>
                  && !kind.OtherKind? && (kind.Logs? <==> shown == "") && fpValid && approver != ""
                  && (kind.Exec? || kind.ExecElevated? ==> canonical))
            && r in {UnknownKind, NeedsLabel, NoLabelForLogs, BadFingerprint, NoApprover, NoDirectory, Installed}
            && (r == UnknownKind <==> kind.OtherKind?)
            && (r == NeedsLabel <==> !kind.OtherKind? && !kind.Logs? && shown == "")
            && (r == NoLabelForLogs <==> kind.Logs? && shown != "")
            && (r in {BadFingerprint, NoApprover, NoDirectory} ==> !kind.OtherKind? && (kind.Logs? <==> shown == ""))
            && (r == BadFingerprint ==> !fpValid) && (r == NoApprover ==> fpValid && approver == "")
            && (r == NoDirectory ==> fpValid && approver != "" && !canonical && (kind.Exec? || kind.ExecElevated?))
  {}

  /** The live grants for other requests. */
  function Others(s: State, q: Slot): seq<Grant> {
    Keep(s.grants, (g: Grant) => s.now < g.expires && g.slot != q)
  }

  lemma {:induction false} KeepTwice<T>(s: seq<T>, p: T -> bool, q: T -> bool, both: T -> bool)
    requires forall x :: both(x) <==> p(x) && q(x)
    ensures Keep(Keep(s, p), q) == Keep(s, both)
  {
    if s != [] {
      KeepTwice(s[..|s| - 1], p, q, both);
      var front := Keep(s[..|s| - 1], p);
      assert (front + [s[|s| - 1]])[..|front|] == front;
    }
  }

  /** The approval makes one grant, for exactly the request it names and from now until its
      window is over. It takes the place of an older one for the same request, or of the oldest
      when there are 32 others; all the others stay. */
  ghost predicate Installs(s: State, t: State, q: Slot, window: nat) {
    && t.installs == s.installs + [Record(s.nextId, q, s.now, window)] && t.nextId == s.nextId + 1
    && t.grants == (if |Others(s, q)| >= 32 then Others(s, q)[1..] else Others(s, q))
                   + [Grant(s.nextId, q, s.now + window)]
    && t.uses == s.uses && t.found == s.found && t.now == s.now
  }

  lemma ReplacedInstalls(s: State, q: Slot, window: nat)
    ensures Installs(s, Replaced(Prune(s), q, window), q, window)
  {
    KeepTwice(s.grants, Unexpired(s.now), OtherSlot(q), (g: Grant) => s.now < g.expires && g.slot != q);
  }

  /** A path and logs are named by themselves. */
  lemma InstallOther(s: State, kind: Kind, shown: string, fp: string, cwd: string, window: nat)
    requires !kind.Exec? && !kind.ExecElevated?
    ensures var (t, r) := DoInstall(s, kind, shown, fp, cwd, window);
            r == Installed && Installs(s, t, Slot(kind, fp, shown, ""), window)
  {
    ReplacedInstalls(s, Slot(kind, fp, shown, ""), window);
  }

  /** A remembered script, no older than a day, of this controller and kind under this label. */
  predicate Remembered(s: State, x: Script, kind: Kind, fp: string, shown: string) {
    x in s.scripts && s.now - x.at < 24 * 60 * 60 && x.kind == kind && x.fp == fp && x.shown == shown
  }

  /** A command is named by its label, unless that is one of a remembered script; then by the
      script's whole token; and two such scripts make the approval fail and change nothing but
      what has expired. */
  lemma InstallCommand(s: State, kind: Kind, shown: string, fp: string, cwd: string, window: nat)
    requires (kind.Exec? || kind.ExecElevated?) && forall x :: x in s.scripts ==> x.token != ""
    ensures var (t, r) := DoInstall(s, kind, shown, fp, cwd, window);
            && (r == Ambiguous <==>
                  exists x, y :: Remembered(s, x, kind, fp, shown) && Remembered(s, y, kind, fp, shown)
                                 && x.token != y.token)
            && (r == Ambiguous ==> t == Prune(s)) && (r != Ambiguous ==> r == Installed)
            && (r == Installed && (forall x :: !Remembered(s, x, kind, fp, shown)) ==>
                  Installs(s, t, Slot(kind, fp, shown, cwd), window))
            && (forall x :: r == Installed && Remembered(s, x, kind, fp, shown) ==>
                  Installs(s, t, Slot(kind, fp, x.token, cwd), window))
  {
    KeepSelects(s.scripts, Recent(s.now));
    var p := Prune(s);
    assert forall x :: Remembered(s, x, kind, fp, shown) <==> x in p.scripts && Labelled(x, kind, fp, shown);
    ResolveExactly(p.scripts, kind, fp, shown, "");
    var key := Resolve(p.scripts, kind, fp, shown, "");
    if key.Some? {
      ReplacedInstalls(s, Slot(kind, fp, key.value, cwd), window);
    }
  }

  // ---------- remembering scripts ----------

  /** A script that is about to be asked about is remembered, in the place of its older record,
      or of the oldest when there are 64 others. */
  lemma AskedExactly(s: State, kind: Kind, fp: string, shown: string, token: string)
    ensures var t := Apply(s, Asked(kind, fp, shown, token));
            var others := Keep(s.scripts, (x: Script) => s.now - x.at < 24 * 60 * 60
                                                         && !(x.kind == kind && x.fp == fp && x.token == token));
            if (kind.Exec? || kind.ExecElevated?) && shown != token then
              && t.scripts == (if |others| >= 64 then others[1..] else others)
                              + [Script(kind, fp, shown, token, s.now)]
              && t.grants == Keep(s.grants, Unexpired(s.now))
              && t.uses == s.uses && t.found == s.found && t.installs == s.installs
            else t == s
  {
    KeepTwice(s.scripts, Recent(s.now), OtherScript(kind, fp, token),
              (x: Script) => s.now - x.at < 24 * 60 * 60 && !(x.kind == kind && x.fp == fp && x.token == token));
  }

  lemma InstallLabelled(s: State, x: Script, kind: Kind, shown: string, fp: string, cwd: string, window: nat)
    requires (kind.Exec? || kind.ExecElevated?) && forall y :: y in s.scripts ==> y.token != ""
    requires Remembered(s, x, kind, fp, shown)
    ensures var (t, r) := DoInstall(s, kind, shown, fp, cwd, window);
            && (r == Installed <==> forall y :: Remembered(s, y, kind, fp, shown) ==> y.token == x.token)
            && (r == Installed ==> Installs(s, t, Slot(kind, fp, x.token, cwd), window))
  {
    InstallCommand(s, kind, shown, fp, cwd, window);
  }

  lemma AskedRemembers(s: State, kind: Kind, fp: string, shown: string, token: string)
    requires (kind.Exec? || kind.ExecElevated?) && shown != token && token != ""
    requires forall x :: x in s.scripts ==> x.token != ""
    ensures var t := Apply(s, Asked(kind, fp, shown, token));
            && Script(kind, fp, shown, token, s.now) in t.scripts && t.now == s.now
            && forall x :: x in t.scripts ==> x.token != ""
  {
    AskedExactly(s, kind, fp, shown, token);
    KeepSelects(s.scripts, (x: Script) => s.now - x.at < 24 * 60 * 60
                                          && !(x.kind == kind && x.fp == fp && x.token == token));
  }

  /** Within a day of the question the approval of its card makes a grant for the whole script,
      unless another script is remembered under the same label. */
  lemma AskedThenInstalled(s: State, u: State, kind: Kind, fp: string, shown: string, token: string, later: nat,
                           cwd: string, window: nat)
    requires (kind.Exec? || kind.ExecElevated?) && shown != token && token != "" && later < 24 * 60 * 60
    requires forall x :: x in s.scripts ==> x.token != ""
    requires u == Apply(Apply(s, Asked(kind, fp, shown, token)), Tick(later))
    ensures var (v, r) := DoInstall(u, kind, shown, fp, cwd, window);
            && (r == Installed <==> forall x :: Remembered(u, x, kind, fp, shown) ==> x.token == token)
            && (r == Installed ==> Installs(u, v, Slot(kind, fp, token, cwd), window))
  {
    AskedRemembers(s, kind, fp, shown, token);
    InstallLabelled(u, Script(kind, fp, shown, token, s.now), kind, shown, fp, cwd, window);
  }

  // ---------- finding and taking ----------

  /** A request finds its own grant and disturbs nothing that is still good. */
  lemma FindExactly(s: State, who: nat, q: Slot)
    ensures var t := Apply(s, Find(who, q));
            && (forall g :: g in t.grants ==> g in s.grants)
            && (forall g :: g in s.grants && s.now < g.expires ==> g in t.grants)
            && t.uses == s.uses && t.installs == s.installs
            && (forall w :: w != who ==> (w in t.found <==> w in s.found))
            && (forall w :: w != who && w in s.found ==> t.found[w] == s.found[w])
  {
    KeepSelects(s.grants, Unexpired(s.now));
  }

  /** Taking spends the grant that was found, if it is still live, and no other. */
  lemma TakeExactly(s: State, who: nat)
    requires Good(s) && who in s.found
    ensures var t := Apply(s, Take(who));
            var g := s.found[who];
            && t.uses == s.uses + (if g in s.grants && s.now < g.expires then [Use(who, g, s.now)] else [])
            && (forall h :: h in t.grants <==> h in s.grants && s.now < h.expires && h.id != g.id)
            && t.found == s.found - {who} && t.installs == s.installs
  {
    TakeInv(s, who, s.found[who]);
    KeepSelects(s.grants, Unexpired(s.now));
    KeepSelects(Prune(s).grants, OtherId(s.found[who].id));
    assert s.uses + [] == s.uses;
  }
}
