/** The job objects and their store: writing output, polling it, starting jobs and
    collecting finished ones. */
module JobStore {
  import opened Common
  import opened Jobs

  class Job {
    const id: Id
    const owner: string
    const maxOutput: int
    var out: bytes
    var done: bool
    var code: int
    var finished: int
    ghost var stream: bytes          // everything the command ever wrote

    ghost predicate Valid()
      reads this
    {
      out == Kept(stream, Limit(maxOutput))
    }

    function View(): Info
      reads this
    {
      Info(done, finished, |out|)
    }

    constructor (id: Id, owner: string, maxOutput: int)
      ensures Valid() && stream == [] && !done && code == 0
      ensures this.id == id && this.owner == owner && this.maxOutput == maxOutput
    {
      this.id, this.owner, this.maxOutput := id, owner, maxOutput;
      out, done, code, finished, stream := [], false, 0, 0, [];
    }

    method Write(p: bytes) returns (n: nat)
      requires Valid()
      modifies this`out, this`stream
      ensures Valid() && stream == old(stream) + p && n == |p|
    {
      KeptSize(stream, Limit(maxOutput));
      var limit := if maxOutput <= 0 then MAX_JOB_OUTPUT else maxOutput;
      var remaining := limit - |out|;
      if remaining > |p| {
        remaining := |p|;
      }
      if remaining > 0 {
        out := out + p[..remaining];
      }
      if remaining < |p| {
        if limit >= |MARKER| {
          out := out[..limit - |MARKER|] + MARKER;
        }
      }
      assert p[..0] == [] && old(out) + [] == old(out);
      assert out == Written(old(out), p, limit);
      WriteKeeps(stream, p, limit);
      stream := stream + p;
      n := |p|;
    }

    /** The output from an offset that is clamped into range. */
    method Snapshot(offset: int) returns (newOut: bytes, total: nat, isDone: bool, status: int)
      ensures total == |out| && isDone == done && status == code
      ensures newOut == if offset < 0 then out else if offset > |out| then [] else out[offset..]
    {
      total := |out|;
      var at := offset;
      if at < 0 { at := 0; }
      if at > total { at := total; }
      newOut := out[at..];
      isDone, status := done, code;
    }

    /** The command has ended. */
    method Finish(status: int, now: int)
      modifies this`done, this`code, this`finished
      ensures done && code == status && finished == now
    {
      done, code, finished := true, status, now;
    }
  }

  method Insert(r: seq<Retained>, x: Retained) returns (t: seq<Retained>)
    requires Sorted(r)
    ensures Sorted(t) && multiset(t) == multiset(r + [x])
  {
    var k := 0;
    while k < |r| && r[k].finished <= x.finished
      invariant 0 <= k <= |r| && forall j :: 0 <= j < k ==> r[j].finished <= x.finished
    {
      k := k + 1;
    }
    InsertedSorted(r, x, k);
    InsertedOnce(r[..k], x, r[k..]);
    assert r == r[..k] + r[k..];
    t := r[..k] + [x] + r[k..];
  }

  lemma InsertedOnce(a: seq<Retained>, x: Retained, b: seq<Retained>)
    ensures multiset(a + [x] + b) == multiset((a + b) + [x])
  {}

  lemma InsertedSorted(r: seq<Retained>, x: Retained, k: nat)
    requires Sorted(r) && k <= |r| && (forall j :: 0 <= j < k ==> r[j].finished <= x.finished)
    requires k < |r| ==> x.finished <= r[k].finished
    ensures Sorted(r[..k] + [x] + r[k..])
  {
    var t := r[..k] + [x] + r[k..];
    forall i, j | 0 <= i < j < |t| ensures t[i].finished <= t[j].finished {
      assert t[i] == if i < k then r[i] else if i == k then x else r[i - 1];
      assert t[j] == if j < k then r[j] else if j == k then x else r[j - 1];
    }
  }

  /** sort.Slice leaves jobs that finished together in any order. */
  method SortByFinished(s: seq<Retained>) returns (r: seq<Retained>)
    ensures Sorted(r) && multiset(r) == multiset(s)
  {
    r := [];
    for i := 0 to |s|
      invariant Sorted(r) && multiset(r) == multiset(s[..i])
    {
      assert s[..i + 1] == s[..i] + [s[i]];
      r := Insert(r, s[i]);
    }
    assert s[..|s|] == s;
  }

  lemma {:induction false} BytesOf(s: seq<Retained>, k: nat)
    requires k < |s|
    ensures Bytes(s[k..]) == s[k].size + Bytes(s[k + 1..])
  {
    assert s[k..][0] == s[k] && s[k..][1..] == s[k + 1..];
  }

  lemma Without(t: seq<Retained>, x: Retained) returns (rest: seq<Retained>)
    requires x in multiset(t)
    ensures multiset(rest) == multiset(t) - multiset{x} && Bytes(t) == x.size + Bytes(rest)
  {
    assert x in t;
    var k :| 0 <= k < |t| && t[k] == x;
    rest := t[..k] + t[k + 1..];
    assert t == t[..k] + [x] + t[k + 1..];
    BytesMoved(t[..k], x, t[k + 1..]);
  }

  lemma {:induction false} BytesMultiset(s: seq<Retained>, t: seq<Retained>)
    requires multiset(s) == multiset(t)
    ensures Bytes(s) == Bytes(t)
    decreases |s|
  {
    assert |multiset(s)| == |s| && |multiset(t)| == |t|;
    if s != [] {
      assert s[0] in multiset(s);
      var a := Without(s, s[0]);
      var b := Without(t, s[0]);
      assert |multiset(a)| == |a|;
      BytesMultiset(a, b);
    }
  }

  lemma {:induction false} BytesMoved(a: seq<Retained>, x: Retained, b: seq<Retained>)
    ensures Bytes(a + [x] + b) == x.size + Bytes(a + b)
  {
    if a == [] {
      assert a + [x] + b == [x] + b && a + b == b;
    } else {
      BytesMoved(a[1..], x, b);
      assert (a + [x] + b)[1..] == a[1..] + [x] + b && (a + b)[1..] == a[1..] + b;
    }
  }

  lemma SameListing(live: map<Id, Info>, s: seq<Retained>, t: seq<Retained>)
    requires Lists(live, s) && multiset(s) == multiset(t)
    ensures Lists(live, t)
  {
    forall r ensures r in s <==> r in t {
      assert r in multiset(s) <==> r in multiset(t);
    }
    forall i, j | 0 <= i < j < |t| ensures t[i].id != t[j].id {
      if t[i].id == t[j].id {
        assert t[i] in s && t[j] in s;
        assert t[i] == t[j];
        assert t == t[..i] + [t[i]] + t[i + 1..j] + [t[j]] + t[j + 1..];
        assert multiset(t)[t[i]] >= 2;
        Once(s, t[i]);
      }
    }
  }

  lemma {:induction false} Once(s: seq<Retained>, r: Retained)
    requires DistinctIds(s)
    ensures multiset(s)[r] <= 1
  {
    if s != [] {
      assert s == [s[0]] + s[1..];
      Once(s[1..], r);
      assert forall x :: x in s[1..] ==> x.id != s[0].id;
      if r == s[0] { assert r !in s[1..]; }
    }
  }

  class Store {
    var jobs: map<Id, Job>
    var running: nat
    const maxConcurrent: int
    const maxRetained: int
    const maxBytes: int
    const retain: nat
    ghost var active: set<Job>       // started, and the goroutine has not left

    /** The count is that of the goroutines, within the limit, and every stored job that has
        not finished still has its goroutine. */
    ghost predicate Valid()
      reads this, jobs.Values
    {
      && running == |active| && (active != {} ==> running <= maxConcurrent)
      && forall id :: id in jobs && !jobs[id].done ==> jobs[id] in active
    }

    constructor (maxConcurrent: int, maxRetained: int, maxBytes: int, retain: nat)
      ensures Valid() && jobs == map[] && running == 0 && active == {}
      ensures this.maxConcurrent == maxConcurrent && this.maxRetained == maxRetained
      ensures this.maxBytes == maxBytes && this.retain == retain
    {
      jobs, running, active := map[], 0, {};
      this.maxConcurrent, this.maxRetained, this.maxBytes, this.retain := maxConcurrent, maxRetained, maxBytes, retain;
    }

    ghost function View(): map<Id, Info>
      reads this, jobs.Values
    {
      Infos(jobs)
    }

    /** The first loop: expired jobs go, and the other finished ones are listed. */
    method DropExpired(now: int) returns (retained: seq<Retained>, size: nat)
      modifies this`jobs
      ensures View() == Unexpired(old(View()), now - retain)
      ensures forall id :: id in jobs ==> id in old(jobs) && jobs[id] == old(jobs)[id]
      ensures Lists(View(), retained) && size == Bytes(retained)
    {
      var todo := jobs.Keys;
      var cutoff := now - retain;
      retained, size := [], 0;
      ghost var was, infos := jobs, Infos(jobs);
      while todo != {}
        invariant todo <= was.Keys
        invariant forall id :: id in jobs ==> id in was && jobs[id] == was[id]
        invariant Swept(infos, jobs.Keys, todo, cutoff, retained) && size == Bytes(retained)
      {
        var id :| id in todo;
        var j := jobs[id];
        assert infos[id] == j.View();
        SweptOne(infos, jobs.Keys, todo, cutoff, retained, id);
        if j.done && j.finished < cutoff {
          jobs := jobs - {id};
        } else if j.done {
          var r := Retained(id, j.finished, |j.out|);
          AddedBytes(retained, r);
          retained := retained + [r];
          size := size + |j.out|;
        }
        todo := todo - {id};
      }
      SeenAll(was, jobs, cutoff, retained);
    }

    /** The second loop: the oldest go until both budgets are met. With a negative budget it
        runs out of jobs to evict, which is a panic. */
    method Evict(sorted: seq<Retained>, size: nat) returns (panics: bool, ghost k: nat)
      requires size == Bytes(sorted)
      modifies this`jobs
      ensures panics <==> maxRetained < 0 || maxBytes < 0
      ensures k <= |sorted| && jobs == old(jobs) - Ids(sorted[..k])
      ensures !panics ==> Evicts(sorted, k, maxRetained, maxBytes)
    {
      var retained, left := sorted, size;
      k := 0;
      assert Ids(sorted[..0]) == {} && jobs - {} == jobs;
      while |retained| > maxRetained || left > maxBytes
        invariant k <= |sorted| && retained == sorted[k..] && left == Bytes(retained)
        invariant forall i :: 0 <= i < k ==> !Fits(sorted[i..], maxRetained, maxBytes)
        invariant jobs == old(jobs) - Ids(sorted[..k])
        decreases |retained|
      {
        if |retained| == 0 {
          return true, k;
        }
        var oldest := retained[0];
        BytesOf(sorted, k);
        EvictOne(old(jobs), sorted, k);
        retained := retained[1..];
        jobs := jobs - {oldest.id};
        left := left - oldest.size;
        k := k + 1;
      }
      return false, k;
    }

    method GcLocked(now: int) returns (panics: bool, ghost sorted: seq<Retained>, ghost k: nat)
      modifies this`jobs
      ensures panics <==> maxRetained < 0 || maxBytes < 0
      ensures !panics ==> Collected(old(View()), View(), sorted, k, now - retain, maxRetained, maxBytes)
      ensures forall id :: id in jobs ==> id in old(jobs) && jobs[id] == old(jobs)[id]
    {
      var retained, size := DropExpired(now);
      var order := SortByFinished(retained);
      sorted := order;
      SameListing(View(), retained, order);
      BytesMultiset(retained, order);
      ghost var live := jobs;
      panics, k := Evict(order, size);
      InfosMinus(live, Ids(order[..k]));
    }

    /** Collects first; then a job another controller started looks like one that does not
        exist. */
    method GetFor(id: Id, owner: string, now: int)
      returns (panics: bool, j: Job?, ghost sorted: seq<Retained>, ghost k: nat)
      requires Valid()
      modifies this`jobs
      ensures Valid()
      ensures panics <==> maxRetained < 0 || maxBytes < 0
      ensures !panics ==> Collected(old(View()), View(), sorted, k, now - retain, maxRetained, maxBytes)
      ensures !panics ==> if id in jobs && jobs[id].owner == owner then j == jobs[id] else j == null
      ensures forall x :: x in jobs ==> x in old(jobs) && jobs[x] == old(jobs)[x]
    {
      panics, sorted, k := GcLocked(now);
      j := null;
      if !panics && id in jobs && jobs[id].owner == owner {
        j := jobs[id];
      }
    }

    /** The locked part of start: collects, and then adds the job unless too many run. left
        is what the collection leaves. */
    method Start(id: Id, owner: string, maxOutput: int, now: int)
      returns (panics: bool, j: Job?, ghost left: map<Id, Job>, ghost sorted: seq<Retained>, ghost k: nat)
      requires Valid()
      modifies this`jobs, this`running, this`active
      ensures Valid() && active == old(active) + (if j == null then {} else {j})
      ensures panics <==> maxRetained < 0 || maxBytes < 0
      ensures forall x :: x in left ==> x in old(jobs) && left[x] == old(jobs)[x]
      ensures !panics ==> Collected(old(View()), old(Infos(left)), sorted, k, now - retain, maxRetained, maxBytes)
      ensures !panics ==> (j == null <==> old(running) >= maxConcurrent)
      ensures j == null ==> running == old(running) && jobs == left
      ensures j != null ==> running == old(running) + 1 <= maxConcurrent && jobs == left[id := j] && fresh(j)
      ensures j != null ==> j.Valid() && j.stream == [] && !j.done && j.owner == owner && j.id == id
    {
      panics, sorted, k := GcLocked(now);
      left := jobs;
      if panics || running >= maxConcurrent {
        return panics, null, left, sorted, k;
      }
      var job := new Job(id, owner, maxOutput);
      jobs := jobs[id := job];
      running := running + 1;
      active := active + {job};
      return false, job, left, sorted, k;
    }

    /** The goroutine's last section: the job stops counting, and the store collects. */
    method Leave(j: Job, now: int) returns (panics: bool, ghost sorted: seq<Retained>, ghost k: nat)
      requires Valid() && j in active && j.done
      modifies this`jobs, this`running, this`active
      ensures Valid() && active == old(active) - {j} && running == old(running) - 1
      ensures panics <==> maxRetained < 0 || maxBytes < 0
      ensures !panics ==> Collected(old(View()), View(), sorted, k, now - retain, maxRetained, maxBytes)
      ensures forall id :: id in jobs ==> id in old(jobs) && jobs[id] == old(jobs)[id]
    {
      running := running - 1;
      active := active - {j};
      panics, sorted, k := GcLocked(now);
    }
  }

  // ---------- runs ----------

  /** A step of a controller, or of the goroutine of the k-th job at work. */
  datatype Step =
    | StartStep(id: Id, owner: string, maxOutput: int)
    | GetStep(id: Id, owner: string)
    | WriteStep(k: nat, p: bytes)
    | FinishStep(k: nat, status: int)
    | LeaveStep(k: nat)

  /** atWork lists the jobs whose goroutines have not left. */
  ghost predicate Working(s: Store, atWork: seq<Job>)
    reads s, s.jobs.Values, s.active
  {
    && s.Valid() && NoDup(atWork) && s.active == (set j | j in atWork)
    && forall j :: j in s.active ==> j.Valid()
  }

  lemma JoinsWork(atWork: seq<Job>, j: Job)
    requires NoDup(atWork) && j !in atWork
    ensures NoDup(atWork + [j]) && (set x | x in atWork + [j]) == (set x | x in atWork) + {j}
  {}

  lemma LeavesWork(atWork: seq<Job>, k: nat)
    requires NoDup(atWork) && k < |atWork|
    ensures var next := atWork[..k] + atWork[k + 1..];
            NoDup(next) && (set x | x in next) == (set x | x in atWork) - {atWork[k]}
  {
    var next := atWork[..k] + atWork[k + 1..];
    assert forall i :: 0 <= i < |next| ==> next[i] == if i < k then atWork[i] else atWork[i + 1];
    forall x | x in atWork && x != atWork[k] ensures x in next {
      var i :| 0 <= i < |atWork| && atWork[i] == x;
      assert next[if i < k then i else i - 1] == x;
    }
  }

  lemma Joined(s: Store, atWork: seq<Job>, j: Job)
    requires s.Valid() && NoDup(atWork) && j !in atWork && s.active == (set x | x in atWork) + {j}
    requires forall x :: x in s.active ==> x.Valid()
    ensures Working(s, atWork + [j])
  {
    JoinsWork(atWork, j);
  }

  method TakeStart(s: Store, atWork: seq<Job>, id: Id, owner: string, maxOutput: int, now: int)
    returns (panics: bool, next: seq<Job>)
    requires Working(s, atWork)
    modifies s
    ensures Working(s, next) && forall j :: j in next ==> j in atWork || fresh(j)
  {
    var broke, j, left, sorted, n := s.Start(id, owner, maxOutput, now);
    panics, next := broke, atWork;
    if j != null {
      Joined(s, atWork, j);
      next := atWork + [j];
    }
  }

  method TakeLeave(s: Store, atWork: seq<Job>, k: nat, now: int) returns (panics: bool, next: seq<Job>)
    requires Working(s, atWork) && k < |atWork| && atWork[k].done
    modifies s
    ensures Working(s, next) && forall j :: j in next ==> j in atWork
  {
    LeavesWork(atWork, k);
    var broke, sorted, n := s.Leave(atWork[k], now);
    panics, next := broke, atWork[..k] + atWork[k + 1..];
  }

  method TakeWork(s: Store, atWork: seq<Job>, step: Step, now: int)
    requires Working(s, atWork)
    modifies s.active
    ensures Working(s, atWork)
  {
    if step.WriteStep? && step.k < |atWork| && !atWork[step.k].done {
      var n := atWork[step.k].Write(step.p);
    } else if step.FinishStep? && step.k < |atWork| && !atWork[step.k].done {
      atWork[step.k].Finish(step.status, now);
    }
  }

  /** A step that its goroutine can take now is taken; another does nothing. */
  method Take(s: Store, atWork: seq<Job>, step: Step, now: int) returns (panics: bool, next: seq<Job>)
    requires Working(s, atWork)
    modifies s, s.active
    ensures Working(s, next) && forall j :: j in next ==> j in atWork || fresh(j)
  {
    panics, next := false, atWork;
    if step.StartStep? {
      panics, next := TakeStart(s, atWork, step.id, step.owner, step.maxOutput, now);
    } else if step.GetStep? {
      var broke, j, sorted, n := s.GetFor(step.id, step.owner, now);
      panics := broke;
    } else if step.LeaveStep? && step.k < |atWork| && atWork[step.k].done {
      panics, next := TakeLeave(s, atWork, step.k, now);
    } else {
      TakeWork(s, atWork, step, now);
    }
  }

  /** The jobs whose command has not ended. */
  ghost function Unfinished(s: Store): set<Job>
    reads s, s.active
  {
    set j | j in s.active && !j.done
  }

  lemma RunningBound(s: Store)
    requires s.Valid()
    ensures |Unfinished(s)| <= s.running && (s.running == 0 || s.running <= s.maxConcurrent)
    ensures forall id :: id in s.jobs && !s.jobs[id].done ==> s.jobs[id] in Unfinished(s)
  {
    SubsetSize(Unfinished(s), s.active);
  }

  /** Whatever the steps, the store counts exactly the goroutines that have not left, at most
      maxConcurrent commands run, and every stored job that has not finished is one of them. */
  method RunAll(s: Store, steps: seq<(Step, int)>) returns (atWork: seq<Job>)
    requires s.Valid() && s.active == {}
    modifies s
    ensures Working(s, atWork) && s.running == |atWork|
    ensures |Unfinished(s)| <= s.running && (s.running == 0 || s.running <= s.maxConcurrent)
    ensures forall id :: id in s.jobs && !s.jobs[id].done ==> s.jobs[id] in Unfinished(s)
  {
    atWork := [];
    var panics := false;
    for i := 0 to |steps|
      invariant Working(s, atWork) && forall j :: j in s.active ==> fresh(j)
    {
      panics, atWork := Take(s, atWork, steps[i].0, steps[i].1);
      if panics { break; }
    }
    RunningBound(s);
    SizeOf(atWork, s.active);
  }

  lemma {:induction false} SizeOf(s: seq<Job>, all: set<Job>)
    requires NoDup(s) && all == set j | j in s
    ensures |s| == |all|
  {
    if s != [] {
      var n := |s| - 1;
      SizeOf(s[..n], all - {s[n]});
    } else {
      assert all == {};
    }
  }

  ghost function Infos(jobs: map<Id, Job>): map<Id, Info>
    reads jobs.Values
  {
    map id | id in jobs :: jobs[id].View()
  }

  lemma InfosMinus(jobs: map<Id, Job>, ids: set<Id>)
    ensures Infos(jobs - ids) == Infos(jobs) - ids
  {}

  lemma SeenAll(was: map<Id, Job>, jobs: map<Id, Job>, cutoff: int, s: seq<Retained>)
    requires forall id :: id in jobs ==> id in was && jobs[id] == was[id]
    requires Swept(Infos(was), jobs.Keys, {}, cutoff, s)
    ensures Infos(jobs) == Unexpired(Infos(was), cutoff) && Lists(Infos(jobs), s)
  {}

  lemma EvictOne(jobs: map<Id, Job>, sorted: seq<Retained>, k: nat)
    requires k < |sorted|
    ensures (jobs - Ids(sorted[..k])) - {sorted[k].id} == jobs - Ids(sorted[..k + 1])
  {
    assert sorted[..k + 1] == sorted[..k] + [sorted[k]];
    assert Ids(sorted[..k + 1]) == Ids(sorted[..k]) + {sorted[k].id};
  }

  /** Of the jobs looked at, exactly the expired ones are gone; the others are all there. */
  ghost predicate Seen(infos: map<Id, Info>, left: set<Id>, todo: set<Id>, cutoff: int) {
    && todo <= left <= infos.Keys
    && forall id :: id in infos && id !in todo ==> (id in left <==> !Expired(infos[id], cutoff))
  }

  /** The list so far: the finished jobs already looked at that have not expired. */
  ghost predicate Listed(infos: map<Id, Info>, todo: set<Id>, cutoff: int, s: seq<Retained>) {
    && DistinctIds(s)
    && (forall r :: r in s ==>
          r.id in infos && r.id !in todo && infos[r.id] == Info(true, r.finished, r.size) && r.finished >= cutoff)
    && (forall id :: id in infos && id !in todo && infos[id].done && infos[id].finished >= cutoff ==>
          Retained(id, infos[id].finished, infos[id].size) in s)
  }

  lemma SeenOne(infos: map<Id, Info>, left: set<Id>, todo: set<Id>, cutoff: int, id: Id)
    requires Seen(infos, left, todo, cutoff) && id in todo
    ensures Seen(infos, if Expired(infos[id], cutoff) then left - {id} else left, todo - {id}, cutoff)
  {}

  lemma SkipOne(infos: map<Id, Info>, todo: set<Id>, cutoff: int, s: seq<Retained>, id: Id)
    requires Listed(infos, todo, cutoff, s) && id in infos
    ensures !infos[id].done || Expired(infos[id], cutoff) ==> Listed(infos, todo - {id}, cutoff, s)
  {}

  lemma ListOne(infos: map<Id, Info>, todo: set<Id>, cutoff: int, s: seq<Retained>, id: Id)
    requires Listed(infos, todo, cutoff, s) && id in infos && id in todo
    requires infos[id].done && infos[id].finished >= cutoff
    ensures Listed(infos, todo - {id}, cutoff, s + [Retained(id, infos[id].finished, infos[id].size)])
  {
    forall i | 0 <= i < |s| ensures s[i].id != id {
      assert s[i] in s;
    }
  }

  ghost predicate Swept(infos: map<Id, Info>, left: set<Id>, todo: set<Id>, cutoff: int, s: seq<Retained>) {
    Seen(infos, left, todo, cutoff) && Listed(infos, todo, cutoff, s)
  }

  lemma SweptOne(infos: map<Id, Info>, left: set<Id>, todo: set<Id>, cutoff: int, s: seq<Retained>, id: Id)
    requires Swept(infos, left, todo, cutoff, s) && id in todo
    ensures var info := infos[id];
            if Expired(info, cutoff) then Swept(infos, left - {id}, todo - {id}, cutoff, s)
            else if !info.done then Swept(infos, left, todo - {id}, cutoff, s)
            else Swept(infos, left, todo - {id}, cutoff, s + [Retained(id, info.finished, info.size)])
  {
    SeenOne(infos, left, todo, cutoff, id);
    if infos[id].done && !Expired(infos[id], cutoff) {
      ListOne(infos, todo, cutoff, s, id);
    } else {
      SkipOne(infos, todo, cutoff, s, id);
    }
  }

  lemma AddedBytes(s: seq<Retained>, r: Retained)
    ensures Bytes(s + [r]) == Bytes(s) + r.size
  {
    BytesMoved(s, r, []);
    assert s + [r] + [] == s + [r] && s + [] == s;
  }
}
