/** The paged output reader of a remote workspace, and the controller's loop that
    collects the pages. A page never splits a UTF-8 character (RFC 3629), and no
    byte is lost or repeated, however writes, the finish and the polls interleave. */
module WorkspacePages {
  import opened Common
  import opened Utf8

  const PAGE: nat := 48 * 1024

  function Min(a: nat, b: nat): nat { if a <= b then a else b }

  /** The largest rune start in lo+1..e, or lo when there is none. */
  function BackToStart(output: bytes, lo: nat, e: nat): (r: nat)
    requires lo <= e < |output|
    ensures lo <= r <= e
  {
    if e > lo && !RuneStart(output[e]) then BackToStart(output, lo, e - 1) else e
  }

  /** Where the scan for an unfinished character at the end of the output stops. */
  function HoldBack(output: bytes, lo: nat, start: nat, e: nat): (r: nat)
    requires lo <= start <= e <= |output|
    ensures lo <= r <= e
  {
    if start > lo && e - start < 4 then
      if RuneStart(output[start - 1]) then
        if FullRune(output[start - 1..e]) then e else start - 1
      else HoldBack(output, lo, start - 1, e)
    else e
  }

  /** The end of the page that a poll from offset returns. */
  function NextOffset(output: bytes, offset: nat, done: bool, total: nat): (e: nat)
    requires offset <= |output|
    ensures offset <= e <= Min(|output|, offset + PAGE)
  {
    var e := Min(|output|, offset + PAGE);
    if e < |output| then
      var r := BackToStart(output, offset, e);
      if r == offset then e else r
    else if !done && total == |output| then HoldBack(output, offset, e, e)
    else e
  }

  /** The two scans of the snapshot, as the loops they are. */
  method FindPageEnd(output: bytes, offset: nat, done: bool, total: nat) returns (end: nat)
    requires offset <= |output|
    ensures end == NextOffset(output, offset, done, total)
  {
    end := Min(|output|, offset + PAGE);
    var limit := end;
    if end < |output| {
      while end > offset && !RuneStart(output[end])
        invariant offset <= end <= limit
        invariant BackToStart(output, offset, end) == BackToStart(output, offset, limit)
      {
        end := end - 1;
      }
      if end == offset {
        end := limit;
      }
    } else if !done && total == |output| {
      var start := end;
      while start > offset && end - start < 4
        invariant offset <= start <= end == limit
        invariant HoldBack(output, offset, start, limit) == HoldBack(output, offset, limit, limit)
      {
        start := start - 1;
        if RuneStart(output[start]) {
          if !FullRune(output[start..end]) {
            end := start;
          }
          break;
        }
      }
    }
  }

  // ---------- pages are whole characters ----------

  lemma {:induction false} BackToStartStops(output: bytes, lo: nat, e: nat)
    requires lo <= e < |output|
    ensures var r := BackToStart(output, lo, e);
            && (r > lo ==> RuneStart(output[r]))
            && forall i :: r < i <= e ==> !RuneStart(output[i])
    decreases e
  {
    if e > lo && !RuneStart(output[e]) {
      BackToStartStops(output, lo, e - 1);
    }
  }

  /** The scan gives back the last rune start within four bytes, or nothing. */
  lemma {:induction false} HoldBackStops(output: bytes, lo: nat, start: nat, e: nat)
    requires lo <= start <= e <= |output|
    requires forall i :: start <= i < e ==> !RuneStart(output[i])
    ensures var r := HoldBack(output, lo, start, e);
            && (r < e ==> !FullRune(output[r..e]) && RuneStart(output[r]))
            && (r == e ==> forall s | lo <= s < e && e - s <= 4 && RuneStart(output[s]) ::
                             (forall i :: s < i < e ==> !RuneStart(output[i])) ==> FullRune(output[s..e]))
    decreases start
  {
    if start > lo && e - start < 4 && !RuneStart(output[start - 1]) {
      HoldBackStops(output, lo, start - 1, e);
    }
  }

  /** A proper prefix of a character holds no later rune start. */
  lemma PartialShape(p: bytes)
    requires p != [] && !FullRune(p)
    ensures RuneStart(p[0]) && |p| < 4 && forall i :: 0 < i < |p| ==> !RuneStart(p[i])
  {}

  lemma {:induction false} HoldBackReaches(output: bytes, lo: nat, s: nat, start: nat, e: nat)
    requires lo <= s < start <= e == |output| && e - s < 4
    requires RuneStart(output[s]) && forall i :: s < i < e ==> !RuneStart(output[i])
    requires !FullRune(output[s..e])
    ensures HoldBack(output, lo, start, e) == s
    decreases start
  {
    if start - 1 > s {
      HoldBackReaches(output, lo, s, start - 1, e);
    }
  }

  /** What is held back is all there is of the character it begins. */
  lemma HeldIsPartial(full: bytes, output: bytes, offset: nat, e: nat)
    requires output <= full && Valid(full) && e == |output| && offset <= e && Valid(full[..offset])
    ensures var r := HoldBack(output, offset, e, e); r == |full| || RuneStart(full[r])
  {
    if e == |full| || RuneStart(full[e]) {
      HoldBackStops(output, offset, e, e);
    } else if offset == e {
      BoundaryIsRuneStart(full, e);
    } else {
      var s := BoundaryBelow(full, offset, e);
      CharCovers(full, s, e);
      PrefixSlice(output, full, s, e);
      assert forall i :: s <= i < e ==> output[i] == full[i];
      HoldBackReaches(output, offset, s, e, e);
    }
  }

  /** The last character boundary at or below e. */
  lemma {:induction false} BoundaryBelow(full: bytes, lo: nat, e: nat) returns (s: nat)
    requires Valid(full) && lo < e < |full| && Valid(full[..lo]) && !RuneStart(full[e])
    ensures lo <= s < e && Valid(full[..s]) && RuneStart(full[s])
    ensures forall i :: s < i <= e ==> !RuneStart(full[i])
    decreases e
  {
    if e - 1 == lo || RuneStart(full[e - 1]) {
      s := e - 1;
      BoundaryIsRuneStart(full, s);
    } else {
      s := BoundaryBelow(full, lo, e - 1);
    }
  }

  /** A boundary with no rune start up to and including e opens a character that reaches past e. */
  lemma CharCovers(full: bytes, s: nat, e: nat)
    requires Valid(full) && s < e < |full| && Valid(full[..s])
    requires forall i :: s < i <= e ==> !RuneStart(full[i])
    ensures e - s < 4 && !FullRune(full[s..e])
  {
    BoundaryWithinFour(full, s);
    ProperPrefix(full[s..], e - s);
    Slices(full, s, e);
  }

  /** A page cut short of the output's end is cut at a character boundary. */
  lemma CutIsBoundary(full: bytes, output: bytes, offset: nat, limit: nat)
    requires Valid(full) && output <= full && offset <= |full| && Valid(full[..offset])
    requires offset + 4 <= limit < |output|
    ensures var r := BackToStart(output, offset, limit); r > offset && RuneStart(full[r])
  {
    BackToStartStops(output, offset, limit);
    NearBoundary(full, offset, limit);
    var i :| offset < i <= limit && RuneStart(full[i]);
    assert output[i] == full[i];
  }

  /** A page of an untruncated valid stream is itself valid, even when it was polled
      while the last character was only partly written. */
  lemma PageIsValid(full: bytes, output: bytes, offset: nat, done: bool)
    requires Valid(full) && output <= full && (done ==> output == full)
    requires offset <= |output| && Valid(full[..offset])
    ensures var e := NextOffset(output, offset, done, |output|);
            Valid(output[offset..e]) && Valid(full[..e])
  {
    var e := NextOffset(output, offset, done, |output|);
    var limit := Min(|output|, offset + PAGE);
    if limit < |output| {
      CutIsBoundary(full, output, offset, limit);
    } else if !done {
      HeldIsPartial(full, output, offset, limit);
    }
    BetweenBoundaries(full, offset, e);
    PrefixSlice(output, full, offset, e);
  }

  /** More than four bytes above a boundary there is another one at most three below. */
  lemma {:induction false} NearBoundary(full: bytes, offset: nat, e: nat)
    requires Valid(full) && offset + 4 <= e < |full| && Valid(full[..offset])
    ensures exists i :: offset < i <= e && RuneStart(full[i])
  {
    if !RuneStart(full[e]) {
      var s := BoundaryBelow(full, offset, e);
      CharCovers(full, s, e);
    }
  }

  /** A poll below the retained bytes makes no progress exactly while the command is
      still writing and everything unread is one character's first bytes. */
  lemma StallsExactlyMidCharacter(output: bytes, offset: nat, done: bool, total: nat)
    requires offset < |output|
    ensures NextOffset(output, offset, done, total) == offset
            <==> !done && total == |output| && !FullRune(output[offset..])
  {
    var limit := Min(|output|, offset + PAGE);
    if limit == |output| && !done && total == |output| {
      HoldBackStops(output, offset, limit, limit);
      assert output[offset..limit] == output[offset..];
      if !FullRune(output[offset..]) {
        PartialShape(output[offset..]);
        assert forall i :: offset < i < limit ==> output[i] == output[offset..][i - offset];
        HoldBackReaches(output, offset, offset, limit, limit);
      }
    } else if !FullRune(output[offset..]) {
      PartialShape(output[offset..]);
    }
  }

  // ---------- every interleaving of writes, the finish and the polls ----------

  /** One command's output as the ledger retains it, and the poller's progress. */
  datatype Poller = Poller(output: bytes, total: nat, done: bool, next: nat, pages: seq<bytes>)

  const START := Poller([], 0, false, 0, [])

  /** A write of p retains its first kept bytes; the byte budget decides how many. */
  datatype Event = Write(p: bytes, kept: nat) | Finish | Poll

  function After(s: Poller, e: Event): Poller
    requires s.next <= |s.output|
  {
    match e
    case Write(p, kept) =>
      if s.done then s
      else s.(output := s.output + p[..Min(kept, |p|)], total := s.total + |p|)
    case Finish => s.(done := true)
    case Poll =>
      var e := NextOffset(s.output, s.next, s.done, s.total);
      s.(next := e, pages := s.pages + [s.output[s.next..e]])
  }

  function Run(s: Poller, events: seq<Event>): (t: Poller)
    requires s.next <= |s.output|
    ensures t.next <= |t.output| && s.output <= t.output
    ensures s.done ==> t.done && t.output == s.output && t.total == s.total
    decreases |events|
  {
    if events == [] then s else Run(After(s, events[0]), events[1..])
  }

  /** The pages collected so far are exactly the retained bytes before the next offset. */
  lemma {:induction false} PagesReassemble(s: Poller, events: seq<Event>)
    requires s.next <= |s.output| && Flatten(s.pages) == s.output[..s.next]
    ensures var t := Run(s, events); Flatten(t.pages) == t.output[..t.next]
    decreases |events|
  {
    if events != [] {
      var t := After(s, events[0]);
      if events[0].Poll? {
        FlattenSnoc(s.pages, s.output[s.next..t.next]);
        assert s.output[..s.next] + s.output[s.next..t.next] == t.output[..t.next];
      } else {
        assert t.output[..s.next] == s.output[..s.next];
      }
      PagesReassemble(t, events[1..]);
    }
  }

  /** Nothing the command wrote was dropped for lack of room. */
  lemma {:induction false} RoomNeverRegained(s: Poller, events: seq<Event>)
    requires s.next <= |s.output| && |s.output| <= s.total
    ensures var t := Run(s, events); s.total - |s.output| <= t.total - |t.output|
    decreases |events|
  {
    if events != [] {
      RoomNeverRegained(After(s, events[0]), events[1..]);
    }
  }

  lemma PollKeepsValid(s: Poller, full: bytes)
    requires s.next <= |s.output| && s.output <= full && forall p :: p in s.pages ==> Valid(p)
    requires var e := NextOffset(s.output, s.next, s.done, s.total); Valid(s.output[s.next..e]) && Valid(full[..e])
    ensures var t := After(s, Poll);
            t.next <= |full| && Valid(full[..t.next]) && forall p :: p in t.pages ==> Valid(p)
  {}

  /** For a stream that is valid UTF-8 - or, while the command still runs, can become
      so - and was not truncated, every page ever handed out is valid UTF-8. */
  lemma {:induction false} EveryPageIsValid(s: Poller, events: seq<Event>, full: bytes)
    requires s.next <= |s.output| <= s.total && Valid(full)
    requires Valid(full[..Min(s.next, |full|)]) && forall p :: p in s.pages ==> Valid(p)
    requires var t := Run(s, events);
             t.output <= full && (t.done ==> t.output == full) && t.total == |t.output|
    ensures forall p :: p in Run(s, events).pages ==> Valid(p)
    decreases |events|
  {
    if events != [] {
      RoomNeverRegained(s, events);
      assert s.output <= Run(s, events).output;
      if events[0].Poll? {
        PageIsValid(full, s.output, s.next, s.done);
        PollKeepsValid(s, full);
      } else {
        assert After(s, events[0]).next == s.next && After(s, events[0]).pages == s.pages;
      }
      EveryPageIsValid(After(s, events[0]), events[1..], full);
    }
  }

  /** From the first poll on: no byte lost, none repeated, no character split. */
  lemma PollingIsLossless(events: seq<Event>, full: bytes)
    ensures var t := Run(START, events);
            && Flatten(t.pages) == t.output[..t.next]
            && (Valid(full) && t.output <= full && (t.done ==> t.output == full) && t.total == |t.output|
                ==> forall p :: p in t.pages ==> Valid(p))
  {
    PagesReassemble(START, events);
    var t := Run(START, events);
    if Valid(full) && t.output <= full && (t.done ==> t.output == full) && t.total == |t.output| {
      assert full[..0] == [];
      EveryPageIsValid(START, events, full);
    }
  }
}
