/** Background jobs: what a job keeps of its output, and which finished jobs the store
    gives up. Times are seconds; the system clock is a parameter. */
module Jobs {
  import opened Common

  /** jobOutputTruncated: "\n[wanctl: job output truncated]\n". */
  const MARKER: bytes := [10, 91, 119, 97, 110, 99, 116, 108, 58, 32, 106, 111, 98, 32, 111, 117, 116, 112, 117, 116,
                          32, 116, 114, 117, 110, 99, 97, 116, 101, 100, 93, 10]
  const MAX_JOB_OUTPUT: nat := 8 * 1024 * 1024

  function Limit(maxOutput: int): nat {
    if maxOutput <= 0 then MAX_JOB_OUTPUT else maxOutput
  }

  /** What is kept of a stream: all of it, or its beginning with the marker at the limit. */
  function Kept(stream: bytes, limit: nat): bytes {
    if |stream| <= limit then stream
    else if limit >= |MARKER| then stream[..limit - |MARKER|] + MARKER
    else stream[..limit]
  }

  /** The writer's step on the buffer. */
  function Written(out: bytes, p: bytes, limit: nat): bytes
    requires |out| <= limit
  {
    var remaining := if limit - |out| > |p| then |p| else limit - |out|;
    var grown := out + p[..remaining];
    if remaining < |p| && limit >= |MARKER| then grown[..limit - |MARKER|] + MARKER else grown
  }

  lemma KeptSize(stream: bytes, limit: nat)
    ensures |Kept(stream, limit)| == if |stream| <= limit then |stream| else limit
  {}

  /** One write takes what is kept of the stream to what is kept of the longer stream. */
  lemma WriteKeeps(stream: bytes, p: bytes, limit: nat)
    ensures |Kept(stream, limit)| <= limit
    ensures Written(Kept(stream, limit), p, limit) == Kept(stream + p, limit)
  {
    var out := Kept(stream, limit);
    var n := if limit - |out| > |p| then |p| else limit - |out|;
    if |stream| <= limit {
      assert stream + p[..n] == (stream + p)[..|stream| + n];
      if limit >= |MARKER| && n < |p| {
        Slices(stream + p, 0, limit);
        assert (stream + p)[..limit][..limit - |MARKER|] == (stream + p)[..limit - |MARKER|];
      }
    } else {
      assert p[..0] == [] && out + p[..0] == out;
      assert limit >= |MARKER| ==> (stream + p)[..limit - |MARKER|] == stream[..limit - |MARKER|];
      assert (stream + p)[..limit] == stream[..limit];
    }
  }

  function WriteAll(out: bytes, writes: seq<bytes>, limit: nat): bytes
    requires |out| <= limit
  {
    if writes == [] then out
    else
      var rest := WriteAll(out, writes[..|writes| - 1], limit);
      if |rest| <= limit then Written(rest, writes[|writes| - 1], limit) else rest
  }

  /** However the command cut its output into writes, the job holds exactly what is kept of
      the whole stream. */
  lemma {:induction false} OutputIsKept(writes: seq<bytes>, limit: nat)
    ensures WriteAll([], writes, limit) == Kept(Flatten(writes), limit)
  {
    if writes != [] {
      OutputIsKept(writes[..|writes| - 1], limit);
      WriteKeeps(Flatten(writes[..|writes| - 1]), writes[|writes| - 1], limit);
    }
  }

  /** What a poll has returned stays a prefix of the output if and only if the marker has
      not been written over it: the stream ends within the limit, or had passed it before,
      or the poll stopped short of the marker's place, or read those very bytes. */
  lemma SeenStays(stream: bytes, more: bytes, limit: nat, seen: nat)
    requires seen <= |Kept(stream, limit)|
    ensures Kept(stream, limit)[..seen] <= Kept(stream + more, limit) <==>
            || |stream + more| <= limit || |stream| > limit || limit < |MARKER| || seen <= limit - |MARKER|
            || stream[limit - |MARKER|..seen] == MARKER[..seen - (limit - |MARKER|)]
  {
    var a, b := Kept(stream, limit), Kept(stream + more, limit);
    KeptSize(stream, limit);
    KeptSize(stream + more, limit);
    if |stream + more| <= limit {
      assert a[..seen] == b[..seen];
    } else if |stream| > limit {
      assert a == b by {
        assert (stream + more)[..limit] == stream[..limit];
        if limit >= |MARKER| { assert (stream + more)[..limit - |MARKER|] == stream[..limit - |MARKER|]; }
      }
      assert a[..seen] == b[..seen];
    } else if limit < |MARKER| {
      assert a[..seen] == b[..seen];
    } else {
      var at := limit - |MARKER|;
      if seen <= at {
        assert a[..seen] == b[..seen];
      } else {
        assert (stream + more)[..at] == stream[..at];
        assert b[..seen] == stream[..at] + MARKER[..seen - at];
        assert b[..seen][at..] == MARKER[..seen - at] && stream[..seen][at..] == stream[at..seen];
        assert stream[..seen] == stream[..at] + stream[at..seen];
      }
    }
  }

  /** Such a poller exists: with a limit of 32 it has read one byte when the 33rd arrives. */
  lemma SeenIsLost()
    ensures var stream: bytes := seq(32, _ => 0);
            !(Kept(stream, 32)[..1] <= Kept(stream + [0], 32))
  {
    var stream: bytes := seq(32, _ => 0);
    assert Kept(stream + [0], 32) == stream[..0] + MARKER;
    assert Kept(stream, 32)[..1][0] == 0 && Kept(stream + [0], 32)[0] == 10;
  }

  // ---------- which finished jobs are given up ----------

  type Id = string

  datatype Info = Info(done: bool, finished: int, size: nat)

  /** A finished job as the collector lists it. */
  datatype Retained = Retained(id: Id, finished: int, size: nat)

  function Bytes(s: seq<Retained>): nat {
    if s == [] then 0 else s[0].size + Bytes(s[1..])
  }

  predicate Fits(s: seq<Retained>, maxRetained: int, maxBytes: int) {
    |s| <= maxRetained && Bytes(s) <= maxBytes
  }

  predicate Sorted(s: seq<Retained>) {
    forall i, j :: 0 <= i < j < |s| ==> s[i].finished <= s[j].finished
  }

  predicate Expired(j: Info, cutoff: int) {
    j.done && j.finished < cutoff
  }

  /** The collector evicts this many of the oldest: the fewest after which the rest fits. */
  predicate Evicts(sorted: seq<Retained>, k: nat, maxRetained: int, maxBytes: int) {
    && k <= |sorted| && Fits(sorted[k..], maxRetained, maxBytes)
    && forall i :: 0 <= i < k ==> !Fits(sorted[i..], maxRetained, maxBytes)
  }

  /** The list names exactly the finished jobs that have not expired, each once. */
  ghost predicate Lists(jobs: map<Id, Info>, s: seq<Retained>) {
    && DistinctIds(s)
    && (forall r :: r in s ==> r.id in jobs && jobs[r.id] == Info(true, r.finished, r.size))
    && (forall id :: id in jobs && jobs[id].done ==> Retained(id, jobs[id].finished, jobs[id].size) in s)
  }

  function Unexpired(jobs: map<Id, Info>, cutoff: int): map<Id, Info> {
    map id | id in jobs && !Expired(jobs[id], cutoff) :: jobs[id]
  }

  function Ids(s: seq<Retained>): set<Id> {
    set r | r in s :: r.id
  }

  /** The whole collection, for any order in which the store happens to be listed. */
  ghost predicate Collected(jobs: map<Id, Info>, left: map<Id, Info>, sorted: seq<Retained>, k: nat,
                            cutoff: int, maxRetained: int, maxBytes: int) {
    var live := Unexpired(jobs, cutoff);
    && Lists(live, sorted) && Sorted(sorted) && Evicts(sorted, k, maxRetained, maxBytes)
    && left == live - Ids(sorted[..k])
  }

  ghost predicate DistinctIds(s: seq<Retained>) {
    forall i, j :: 0 <= i < j < |s| ==> s[i].id != s[j].id
  }

  /** An entry is before the cut exactly when its id is. */
  lemma CutById(sorted: seq<Retained>, k: nat, r: Retained)
    requires k <= |sorted| && DistinctIds(sorted) && r in sorted
    ensures r in sorted[k..] <==> r.id !in Ids(sorted[..k])
  {
    var j :| 0 <= j < |sorted| && sorted[j] == r;
    if j < k {
      assert sorted[..k][j] == r;
      forall i | 0 <= i < |sorted[k..]| ensures sorted[k..][i] != r {
        assert sorted[k + i].id != r.id;
      }
    } else {
      assert sorted[k..][j - k] == r;
      forall e | e in sorted[..k] ensures e.id != r.id {
        var i :| 0 <= i < k && sorted[..k][i] == e;
        assert sorted[i].id != sorted[j].id;
      }
    }
  }

  /** The finished jobs left are those behind the cut. */
  lemma RestLists(live: map<Id, Info>, sorted: seq<Retained>, k: nat)
    requires Lists(live, sorted) && k <= |sorted|
    ensures Lists(live - Ids(sorted[..k]), sorted[k..])
  {
    var left, rest := live - Ids(sorted[..k]), sorted[k..];
    forall r | r in rest ensures r.id in left && left[r.id] == Info(true, r.finished, r.size) {
      assert r in sorted;
      CutById(sorted, k, r);
    }
    forall id | id in left && left[id].done ensures Retained(id, left[id].finished, left[id].size) in rest {
      CutById(sorted, k, Retained(id, live[id].finished, live[id].size));
    }
    forall i, j | 0 <= i < j < |rest| ensures rest[i].id != rest[j].id {
      assert rest[i] == sorted[k + i] && rest[j] == sorted[k + j];
    }
  }

  lemma RunningStay(live: map<Id, Info>, sorted: seq<Retained>, k: nat, id: Id)
    requires Lists(live, sorted) && k <= |sorted| && id in live && !live[id].done
    ensures id in live - Ids(sorted[..k])
  {
    forall e | e in sorted[..k] ensures e.id != id {
      assert e in sorted;
    }
  }

  lemma OldestGo(live: map<Id, Info>, sorted: seq<Retained>, k: nat, id: Id, kept: Id)
    requires Lists(live, sorted) && Sorted(sorted) && k <= |sorted|
    requires id in Ids(sorted[..k]) && kept in live && kept !in Ids(sorted[..k]) && live[kept].done
    ensures id in live && live[id].finished <= live[kept].finished
  {
    var e :| e in sorted[..k] && e.id == id;
    var i :| 0 <= i < k && sorted[..k][i] == e;
    assert e in sorted;
    var r := Retained(kept, live[kept].finished, live[kept].size);
    CutById(sorted, k, r);
    var j :| 0 <= j < |sorted[k..]| && sorted[k..][j] == r;
    assert sorted[i].finished <= sorted[k + j].finished;
  }

  /** What the collection means: jobs still running stay and nothing appears; the finished
      jobs left are listed by the rest of the order and meet both budgets; every expired
      job is gone; whoever was evicted finished no later than whoever was kept; and had one
      eviction fewer been made, a budget would have been exceeded. */
  lemma CollectionIsFair(jobs: map<Id, Info>, left: map<Id, Info>, sorted: seq<Retained>, k: nat,
                         cutoff: int, maxRetained: int, maxBytes: int)
    requires Collected(jobs, left, sorted, k, cutoff, maxRetained, maxBytes)
    ensures forall id :: id in left ==>
      id in jobs && left[id] == jobs[id] && !(jobs[id].done && jobs[id].finished < cutoff)
    ensures forall id :: id in jobs && !jobs[id].done ==> id in left
    ensures Lists(left, sorted[k..]) && |sorted[k..]| <= maxRetained && Bytes(sorted[k..]) <= maxBytes
    ensures forall id, kept ::
              id in jobs && !Expired(jobs[id], cutoff) && id !in left && kept in left && left[kept].done
              ==> jobs[id].finished <= left[kept].finished
    ensures k > 0 ==> |sorted[k..]| + 1 > maxRetained || sorted[k - 1].size + Bytes(sorted[k..]) > maxBytes
  {
    var live := Unexpired(jobs, cutoff);
    RestLists(live, sorted, k);
    forall id | id in jobs && !jobs[id].done ensures id in left {
      RunningStay(live, sorted, k, id);
    }
    forall id, kept | id in jobs && !Expired(jobs[id], cutoff) && id !in left && kept in left && left[kept].done
      ensures jobs[id].finished <= left[kept].finished {
      OldestGo(live, sorted, k, id, kept);
    }
    if k > 0 {
      assert sorted[k - 1..][1..] == sorted[k..];
    }
  }
}
