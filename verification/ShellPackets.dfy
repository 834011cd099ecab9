/** The shell_v2 packets inside the WRTE payloads - id, little-endian length, payload -
    whose boundaries need not match the WRTE boundaries, and the incremental parser
    of Conn.Shell. */
module ShellPackets {
  import opened Common
  import opened LittleEndian

  datatype Packet = Packet(id: byte, payload: bytes)

  const STDIN: byte := 0
  const STDOUT: byte := 1
  const STDERR: byte := 2
  const EXIT: byte := 3
  const CLOSE_STDIN: byte := 4

  function EncodePacket(p: Packet): (r: bytes)
    ensures |r| == 5 + |p.payload|
  {
    [p.id] + ToLE(|p.payload|, 4) + p.payload
  }

  function EncodePackets(ps: seq<Packet>): bytes {
    if ps == [] then [] else EncodePacket(ps[0]) + EncodePackets(ps[1..])
  }

  function Length(buf: bytes): u32
    requires |buf| >= 5
  {
    Uint32(buf[1..5])
  }

  /** A whole packet is at the front of buf. */
  predicate Complete(buf: bytes) {
    |buf| >= 5 && |buf| - 5 >= Length(buf)
  }

  function First(buf: bytes): Packet
    requires Complete(buf)
  {
    Packet(buf[0], buf[5..5 + Length(buf)])
  }

  datatype Parsed = Parsed(packets: seq<Packet>, rest: bytes)

  /** One parse of everything that has arrived: whole packets, then what is left over. */
  function Parse(buf: bytes): Parsed
    decreases |buf|
  {
    if !Complete(buf) then Parsed([], buf)
    else
      var more := Parse(buf[5 + Length(buf)..]);
      Parsed([First(buf)] + more.packets, more.rest)
  }

  // ---------- the parse is the inverse of the encoding ----------

  ghost predicate Encodable(ps: seq<Packet>) {
    forall p :: p in ps ==> |p.payload| < U32
  }

  lemma FrontPacket(p: Packet, tail: bytes)
    requires |p.payload| < U32
    ensures var s := EncodePacket(p) + tail;
            Complete(s) && First(s) == p && s[5 + Length(s)..] == tail
  {
    var s := EncodePacket(p) + tail;
    Four(|p.payload|);
    assert s[1..5] == ToLE(|p.payload|, 4);
  }

  /** Nothing but the parse itself splits buf into whole packets and an incomplete rest. */
  lemma {:induction false} ParseIsUnique(ps: seq<Packet>, rest: bytes)
    requires Encodable(ps) && !Complete(rest)
    ensures Parse(EncodePackets(ps) + rest) == Parsed(ps, rest)
  {
    if ps == [] {
      assert EncodePackets(ps) + rest == rest;
    } else {
      var tail := EncodePackets(ps[1..]) + rest;
      assert EncodePackets(ps) + rest == EncodePacket(ps[0]) + tail;
      FrontPacket(ps[0], tail);
      ParseIsUnique(ps[1..], rest);
      assert [ps[0]] + ps[1..] == ps;
    }
  }

  lemma FirstIsFront(buf: bytes)
    requires Complete(buf)
    ensures EncodePacket(First(buf)) == buf[..5 + Length(buf)] && |First(buf).payload| < U32
  {
    FourBack(buf[1..5]);
    assert [buf[0]] + buf[1..5] == buf[..5];
    assert buf[..5] + buf[5..5 + Length(buf)] == buf[..5 + Length(buf)];
  }

  lemma EncodePacketsCons(p: Packet, ps: seq<Packet>)
    ensures EncodePackets([p] + ps) == EncodePacket(p) + EncodePackets(ps)
  {
    assert ([p] + ps)[1..] == ps;
  }

  lemma {:induction false} ParseCovers(buf: bytes)
    ensures var r := Parse(buf);
            Encodable(r.packets) && !Complete(r.rest) && EncodePackets(r.packets) + r.rest == buf
    decreases |buf|
  {
    if Complete(buf) {
      var n := 5 + Length(buf);
      ParseCovers(buf[n..]);
      FirstIsFront(buf);
      var more := Parse(buf[n..]);
      EncodePacketsCons(First(buf), more.packets);
      Regroup(buf[..n], EncodePackets(more.packets), buf[n..], more.rest, buf, []);
    }
  }

  lemma {:induction false} EncodePacketsAppend(a: seq<Packet>, b: seq<Packet>)
    ensures EncodePackets(a + b) == EncodePackets(a) + EncodePackets(b)
  {
    if a == [] {
      assert a + b == b;
    } else {
      EncodePacketsAppend(a[1..], b);
      EncodePacketsCons(a[0], a[1..] + b);
      Assoc([a[0]], a[1..], b);
      assert a == [a[0]] + a[1..];
      Assoc(EncodePacket(a[0]), EncodePackets(a[1..]), EncodePackets(b));
    }
  }

  lemma Regroup(x: bytes, y: bytes, left: bytes, rest: bytes, a: bytes, b: bytes)
    requires x + left == a && y + rest == left + b
    ensures x + y + rest == a + b
  {
    assert x + y + rest == x + (y + rest);
    assert x + (left + b) == (x + left) + b;
  }

  /** Where the stream is cut does not matter: parsing what is left over together with
      the next chunk continues the one parse of the whole. */
  lemma ParseContinues(a: bytes, b: bytes)
    ensures var first := Parse(a);
            var second := Parse(first.rest + b);
            Parse(a + b) == Parsed(first.packets + second.packets, second.rest)
  {
    ParseCovers(a);
    ParseCovers(Parse(a).rest + b);
    var x, y := Parse(a).packets, Parse(Parse(a).rest + b).packets;
    EncodePacketsAppend(x, y);
    Regroup(EncodePackets(x), EncodePackets(y), Parse(a).rest, Parse(Parse(a).rest + b).rest, a, b);
    ParseIsUnique(x + y, Parse(Parse(a).rest + b).rest);
  }

  // ---------- Conn.Shell ----------

  /** What the caller of Shell sees: the writes that reached it, and the exit status. */
  datatype Shell = Shell(writes: seq<bytes>, exit: int, sawExit: bool, failed: bool)

  const NEW_SHELL := Shell([], -1, false, false)

  /** One packet's effect, on a caller whose writer accepts quota writes and then fails. */
  function Deliver(s: Shell, p: Packet, quota: nat): Shell {
    if s.failed then s
    else if p.id == STDOUT || p.id == STDERR then
      if |s.writes| < quota then s.(writes := s.writes + [p.payload]) else s.(failed := true)
    else if p.id == EXIT && |p.payload| >= 1 then s.(exit := p.payload[0], sawExit := true)
    else s
  }

  function DeliverAll(s: Shell, ps: seq<Packet>, quota: nat): Shell {
    if ps == [] then s else Deliver(DeliverAll(s, ps[..|ps| - 1], quota), ps[|ps| - 1], quota)
  }

  lemma {:induction false} DeliverAppend(s: Shell, a: seq<Packet>, b: seq<Packet>, quota: nat)
    ensures DeliverAll(s, a + b, quota) == DeliverAll(DeliverAll(s, a, quota), b, quota)
  {
    if b == [] {
      assert a + b == a;
    } else {
      DeliverAppend(s, a, b[..|b| - 1], quota);
      assert (a + b)[..|a + b| - 1] == a + b[..|b| - 1];
    }
  }

  lemma DeliverCons(s: Shell, p: Packet, ps: seq<Packet>, quota: nat)
    ensures DeliverAll(s, [p] + ps, quota) == DeliverAll(Deliver(s, p, quota), ps, quota)
  {
    DeliverAppend(s, [p], ps, quota);
    assert [p][..0] == [];
  }

  lemma {:induction false} FailureIsSticky(s: Shell, ps: seq<Packet>, quota: nat)
    requires s.failed
    ensures DeliverAll(s, ps, quota) == s
  {
    if ps != [] {
      FailureIsSticky(s, ps[..|ps| - 1], quota);
    }
  }

  /** The original's test for an incomplete packet, uint32(len(buf)-5) < length. */
  predicate SeemsIncomplete(buf: bytes)
    requires |buf| >= 5
  {
    (|buf| - 5) % U32 < Length(buf)
  }

  /** uint32 addition of the header's size. */
  function PacketEnd(length: u32): u32 {
    (5 + length) % U32
  }

  /** What the 32-bit arithmetic must get right about the front of buf: a whole packet is
      seen as whole, and its end does not wrap. */
  predicate StepOk(buf: bytes) {
    Complete(buf) ==> !SeemsIncomplete(buf) && Length(buf) < U32 - 5
  }

  /** Every packet of buf is seen as whole, with an end that does not wrap. */
  predicate Sound(buf: bytes)
    decreases |buf|
  {
    StepOk(buf) && (Complete(buf) ==> Sound(buf[5 + Length(buf)..]))
  }

  /** The k-th packet is shorter than 2^32 - 5, and no longer than what is left in the buffer
      behind its header, modulo 2^32. */
  predicate Fits(ps: seq<Packet>, rest: bytes, k: nat)
    requires k < |ps|
  {
    var left := |EncodePackets(ps[k..]) + rest|;
    |ps[k].payload| < U32 - 5 && |ps[k].payload| <= (left - 5) % U32
  }

  ghost predicate AllFit(ps: seq<Packet>, rest: bytes) {
    forall k :: 0 <= k < |ps| ==> Fits(ps, rest, k)
  }

  lemma FitsBehind(ps: seq<Packet>, rest: bytes, k: nat)
    requires 0 < k < |ps|
    ensures Fits(ps, rest, k) <==> Fits(ps[1..], rest, k - 1)
  {
    assert ps[1..][k - 1..] == ps[k..];
  }

  lemma AllFitCons(ps: seq<Packet>, rest: bytes)
    requires ps != []
    ensures AllFit(ps, rest) <==> Fits(ps, rest, 0) && AllFit(ps[1..], rest)
  {
    forall k | 0 < k < |ps| ensures Fits(ps, rest, k) <==> Fits(ps[1..], rest, k - 1) {
      FitsBehind(ps, rest, k);
    }
    forall k | 0 <= k < |ps| - 1 ensures Fits(ps[1..], rest, k) <==> Fits(ps, rest, k + 1) {
      FitsBehind(ps, rest, k + 1);
    }
  }

  lemma SoundCons(p: Packet, tail: bytes)
    requires |p.payload| < U32
    ensures var s := EncodePacket(p) + tail;
            Sound(s) <==> |p.payload| < U32 - 5 && |p.payload| <= (|s| - 5) % U32 && Sound(tail)
  {
    FrontPacket(p, tail);
  }

  lemma SoundFirst(ps: seq<Packet>, rest: bytes)
    requires ps != [] && |ps[0].payload| < U32
    ensures Sound(EncodePackets(ps) + rest) <==> Fits(ps, rest, 0) && Sound(EncodePackets(ps[1..]) + rest)
  {
    SoundCons(ps[0], EncodePackets(ps[1..]) + rest);
    Assoc(EncodePacket(ps[0]), EncodePackets(ps[1..]), rest);
    assert ps[0..] == ps;
  }

  lemma Unsent(rest: bytes)
    requires !Complete(rest)
    ensures Sound(EncodePackets([]) + rest) && AllFit([], rest)
  {
    assert EncodePackets([]) + rest == rest;
  }

  /** In terms of the packets that were sent: the buffer is sound exactly when they all fit. */
  lemma {:induction false} SoundExactly(ps: seq<Packet>, rest: bytes)
    requires Encodable(ps) && !Complete(rest)
    ensures Sound(EncodePackets(ps) + rest) <==> AllFit(ps, rest)
  {
    if ps == [] {
      Unsent(rest);
    } else {
      SoundFirst(ps, rest);
      AllFitCons(ps, rest);
      SoundExactly(ps[1..], rest);
    }
  }

  /** With less than 4 GiB in the buffer nothing wraps. */
  lemma {:induction false} SoundBelow(buf: bytes)
    requires |buf| < U32
    ensures Sound(buf)
    decreases |buf|
  {
    if Complete(buf) {
      SoundBelow(buf[5 + Length(buf)..]);
    }
  }

  /** A header and size bytes behind it. */
  function Padded(length: u32, size: nat): bytes {
    [STDOUT] + ToLE(length, 4) + seq(size, _ => 0)
  }

  lemma PaddedFront(length: u32, size: nat)
    ensures var b := Padded(length, size); |b| == 5 + size && Length(b) == length
  {
    Four(length);
    assert Padded(length, size)[1..5] == ToLE(length, 4);
  }

  /** One byte to deliver and 4 GiB behind the header: the packet seems incomplete. */
  lemma WholePacketStalls()
    ensures var b := Padded(1, U32); Complete(b) && SeemsIncomplete(b) && !Sound(b)
  {
    PaddedFront(1, U32);
  }

  /** A packet of 2^32 - 3 bytes that has arrived: its end wraps to 2, and slicing panics. */
  lemma HugePacketPanics()
    ensures var b := Padded(U32 - 3, U32 - 1);
            Complete(b) && !SeemsIncomplete(b) && PacketEnd(Length(b)) == 2 && !Sound(b)
  {
    PaddedFront(U32 - 3, U32 - 1);
  }

  datatype Drained = Drained(rest: bytes, shell: Shell, panics: bool)

  const START := Drained([], NEW_SHELL, false)

  /** One packet's payload goes to the caller's writer, or sets the exit status. */
  method DeliverOne(id: byte, payload: bytes, s: Shell, quota: nat) returns (r: Shell)
    requires !s.failed
    ensures r == Deliver(s, Packet(id, payload), quota)
  {
    r := s;
    if id == STDOUT || id == STDERR {
      if |r.writes| >= quota {
        return r.(failed := true);
      }
      r := r.(writes := r.writes + [payload]);
    } else if id == EXIT {
      if |payload| >= 1 {
        r := r.(exit := payload[0], sawExit := true);
      }
    }
  }

  /** Draining buf, for a caller at r, ends where draining input, for one at s, does. */
  ghost predicate SameDrain(input: bytes, s: Shell, buf: bytes, r: Shell, quota: nat) {
    && DeliverAll(s, Parse(input).packets, quota) == DeliverAll(r, Parse(buf).packets, quota)
    && (!r.failed ==> Parse(input).rest == Parse(buf).rest)
  }

  lemma DrainFirst(input: bytes, s: Shell, buf: bytes, r: Shell, quota: nat)
    requires SameDrain(input, s, buf, r, quota) && Complete(buf) && !r.failed
    ensures var next := Deliver(r, First(buf), quota);
            && (!next.failed ==> SameDrain(input, s, buf[5 + Length(buf)..], next, quota))
            && (next.failed ==> SameDrain(input, s, [], next, quota))
  {
    var more := Parse(buf[5 + Length(buf)..]).packets;
    var next := Deliver(r, First(buf), quota);
    DeliverCons(r, First(buf), more, quota);
    if next.failed { FailureIsSticky(next, more, quota); }
  }

  /** The drain did what one parse of input asks for: all its packets are delivered, or those
      up to the first refused write, and nothing but the incomplete rest is kept. */
  ghost predicate Right(d: Drained, input: bytes, s: Shell, quota: nat) {
    && !d.panics && d.shell == DeliverAll(s, Parse(input).packets, quota)
    && d.rest == (if d.shell.failed then [] else Parse(input).rest)
  }

  /** A packet that does not seem incomplete is whole, and its computed end is the true one
      or makes the slice panic. */
  lemma EndCases(buf: bytes)
    requires |buf| >= 5 && !SeemsIncomplete(buf)
    ensures Complete(buf)
    ensures var end := PacketEnd(Length(buf));
            if Length(buf) < U32 - 5 then 5 <= end <= |buf| && end == 5 + Length(buf) else end < 5
    ensures StepOk(buf) <==> Length(buf) < U32 - 5
  {}

  lemma SeemsCases(buf: bytes)
    requires |buf| < 5 || SeemsIncomplete(buf)
    ensures Complete(buf) ==> |buf| - 5 >= U32 && SeemsIncomplete(buf)
    ensures Sound(buf) <==> !Complete(buf)
  {}

  /** A drain that ends before buf is right exactly when no whole packet is left there. */
  lemma StopsAt(input: bytes, s: Shell, buf: bytes, r: Shell, quota: nat)
    requires SameDrain(input, s, buf, r, quota) && !r.failed
    ensures Right(Drained(buf, r, false), input, s, quota) <==> !Complete(buf)
  {
    ParseCovers(input);
  }

  /** drainShellPackets, with the 32-bit arithmetic of the original. It is right exactly for a
      sound buffer, unless a write fails first; it panics over a packet whose end wraps, or
      stops before one that seems incomplete. In any case no packet is lost: what was
      delivered and what is kept make up the whole. */
  method Drain(input: bytes, s: Shell, quota: nat) returns (d: Drained)
    requires !s.failed
    ensures Right(d, input, s, quota) <==> d.shell.failed || Sound(input)
    ensures |input| < U32 ==> Right(d, input, s, quota)
    ensures SameDrain(input, s, d.rest, d.shell, quota)
    ensures d.panics ==> Complete(d.rest) && !d.shell.failed && Length(d.rest) >= U32 - 5
    ensures !d.panics && Complete(d.rest) ==> |d.rest| - 5 >= U32 && SeemsIncomplete(d.rest)
  {
    if |input| < U32 { SoundBelow(input); }
    var buf := input;
    var r := s;
    while |buf| >= 5
      invariant !r.failed && SameDrain(input, s, buf, r, quota)
      invariant Sound(input) <==> Sound(buf)
      decreases |buf|
    {
      if SeemsIncomplete(buf) {
        break;
      }
      var end := PacketEnd(Length(buf));
      EndCases(buf);
      if end < 5 || end > |buf| {
        return Drained(buf, r, true);
      }
      DrainFirst(input, s, buf, r, quota);
      r := DeliverOne(buf[0], buf[5..end], r, quota);
      if r.failed {
        return Drained([], r, false);
      }
      buf := buf[end..];
    }
    SeemsCases(buf);
    StopsAt(input, s, buf, r, quota);
    return Drained(buf, r, false);
  }

  /** What the first k chunks brought. */
  function Arrived(chunks: seq<bytes>, k: nat): bytes
    requires k <= |chunks|
  {
    Flatten(chunks[..k])
  }

  lemma SplitChunks(chunks: seq<bytes>, i: nat)
    requires i < |chunks|
    ensures Arrived(chunks, i + 1) == Arrived(chunks, i) + chunks[i]
  {
    assert chunks[..i + 1] == chunks[..i] + [chunks[i]];
    FlattenSnoc(chunks[..i], chunks[i]);
  }

  /** What a parse of the chunks before the k-th leaves over and that chunk are a sound buffer. */
  ghost predicate SoundAt(chunks: seq<bytes>, k: nat)
    requires k < |chunks|
  {
    Sound(Parse(Arrived(chunks, k)).rest + chunks[k])
  }

  ghost predicate SoundChunks(chunks: seq<bytes>, n: nat)
    requires n <= |chunks|
  {
    forall k :: 0 <= k < n ==> SoundAt(chunks, k)
  }

  /** One more chunk arrives: the parse of the stream so far goes on. */
  lemma DrainNext(seen: bytes, chunk: bytes, rest: bytes, r: Shell, quota: nat)
    requires SameDrain(seen, NEW_SHELL, rest, r, quota) && !r.failed
    ensures SameDrain(seen + chunk, NEW_SHELL, rest + chunk, r, quota)
  {
    ParseContinues(seen, chunk);
    ParseContinues(rest, chunk);
    var more := Parse(Parse(seen).rest + chunk).packets;
    DeliverAppend(NEW_SHELL, Parse(seen).packets, more, quota);
    DeliverAppend(r, Parse(rest).packets, more, quota);
  }

  lemma SameDrainOn(a: bytes, s: Shell, b: bytes, r: Shell, d: Drained, quota: nat)
    requires !r.failed && SameDrain(a, s, b, r, quota)
    ensures SameDrain(b, r, d.rest, d.shell, quota) ==> SameDrain(a, s, d.rest, d.shell, quota)
    ensures Right(d, a, s, quota) <==> Right(d, b, r, quota)
  {}

  /** A failed write ends the drain, as it would end the one parse of the whole. */
  lemma FailedForGood(seen: bytes, later: bytes, r: Shell, quota: nat)
    requires r.failed && SameDrain(seen, NEW_SHELL, [], r, quota)
    ensures SameDrain(seen + later, NEW_SHELL, [], r, quota)
  {
    ParseContinues(seen, later);
    DeliverAppend(NEW_SHELL, Parse(seen).packets, Parse(Parse(seen).rest + later).packets, quota);
    FailureIsSticky(r, Parse(Parse(seen).rest + later).packets, quota);
  }

  /** All packets that the first k chunks brought whole have been delivered. */
  ghost predicate RightAfter(d: Drained, chunks: seq<bytes>, k: nat, quota: nat)
    requires k <= |chunks|
  {
    Right(d, Arrived(chunks, k), NEW_SHELL, quota)
  }

  /** And so after every chunk so far. */
  ghost predicate Prompt(history: seq<Drained>, chunks: seq<bytes>, quota: nat)
    requires |history| <= |chunks|
  {
    forall k :: 0 <= k < |history| ==> RightAfter(history[k], chunks, k + 1, quota)
  }

  /** Less than 4 GiB are buffered at any point. */
  ghost predicate Bounded(chunks: seq<bytes>) {
    forall k :: 0 <= k < |chunks| ==> |Parse(Arrived(chunks, k)).rest| + |chunks[k]| < U32
  }

  lemma BoundedIsSound(chunks: seq<bytes>)
    requires Bounded(chunks)
    ensures SoundChunks(chunks, |chunks|)
  {
    forall k | 0 <= k < |chunks| ensures SoundAt(chunks, k) {
      SoundBelow(Parse(Arrived(chunks, k)).rest + chunks[k]);
    }
  }

  function Last(history: seq<Drained>): Drained {
    if history == [] then START else history[|history| - 1]
  }

  /** One more Drain, and what it promises. */
  lemma OneDrain(seen: bytes, chunk: bytes, was: Drained, d: Drained, quota: nat)
    requires !was.shell.failed && SameDrain(seen, NEW_SHELL, was.rest, was.shell, quota)
    requires var buf := was.rest + chunk;
             && SameDrain(buf, was.shell, d.rest, d.shell, quota)
             && (Right(d, buf, was.shell, quota) <==> d.shell.failed || Sound(buf))
    ensures SameDrain(seen + chunk, NEW_SHELL, d.rest, d.shell, quota)
    ensures Right(was, seen, NEW_SHELL, quota) ==>
      (Right(d, seen + chunk, NEW_SHELL, quota) <==> d.shell.failed || Sound(Parse(seen).rest + chunk))
  {
    DrainNext(seen, chunk, was.rest, was.shell, quota);
    SameDrainOn(seen + chunk, NEW_SHELL, was.rest + chunk, was.shell, d, quota);
  }

  lemma PromptNext(history: seq<Drained>, d: Drained, chunks: seq<bytes>, quota: nat)
    requires |history| < |chunks|
    ensures Prompt(history + [d], chunks, quota) <==>
            Prompt(history, chunks, quota) && RightAfter(d, chunks, |history| + 1, quota)
  {
    var h := history + [d];
    assert forall k :: 0 <= k < |h| ==> h[k] == if k < |history| then history[k] else d;
    if Prompt(h, chunks, quota) { assert h[|history|] == d; }
  }

  lemma SoundNext(chunks: seq<bytes>, k: nat)
    requires k < |chunks|
    ensures SoundChunks(chunks, k + 1) <==> SoundChunks(chunks, k) && SoundAt(chunks, k)
  {}

  lemma PromptSoFar(history: seq<Drained>, chunks: seq<bytes>, quota: nat)
    requires |history| <= |chunks| && Prompt(history, chunks, quota)
    ensures RightAfter(Last(history), chunks, |history|, quota)
  {}

  /** The first chunks are drained, and nothing has failed. */
  ghost predicate Draining(chunks: seq<bytes>, history: seq<Drained>, quota: nat) {
    && |history| <= |chunks| && !Last(history).panics && !Last(history).shell.failed
    && SameDrain(Arrived(chunks, |history|), NEW_SHELL, Last(history).rest, Last(history).shell, quota)
    && (Prompt(history, chunks, quota) <==> SoundChunks(chunks, |history|))
  }

  lemma ChunkDrained(chunks: seq<bytes>, history: seq<Drained>, d: Drained, quota: nat)
    requires |history| < |chunks| && Draining(chunks, history, quota)
    requires var was := Last(history);
             var buf := was.rest + chunks[|history|];
             && SameDrain(buf, was.shell, d.rest, d.shell, quota)
             && (Right(d, buf, was.shell, quota) <==> d.shell.failed || Sound(buf))
    ensures SameDrain(Arrived(chunks, |history| + 1), NEW_SHELL, d.rest, d.shell, quota)
    ensures !d.shell.failed ==>
      (Prompt(history + [d], chunks, quota) <==> SoundChunks(chunks, |history| + 1))
  {
    var i := |history|;
    SplitChunks(chunks, i);
    OneDrain(Arrived(chunks, i), chunks[i], Last(history), d, quota);
    PromptNext(history, d, chunks, quota);
    SoundNext(chunks, i);
    if Prompt(history, chunks, quota) {
      PromptSoFar(history, chunks, quota);
    }
  }

  lemma LastSnoc(history: seq<Drained>, d: Drained)
    ensures Last(history + [d]) == d
  {}

  /** However the stream was cut, what was delivered and what is kept make up the whole, unless
      a drain panics. With less than 4 GiB buffered at a time none does, and the result is that
      of one parse of the whole stream, of any length. */
  ghost predicate Whole(chunks: seq<bytes>, d: Drained, quota: nat) {
    && (!d.panics ==> SameDrain(Flatten(chunks), NEW_SHELL, d.rest, d.shell, quota))
    && (Bounded(chunks) ==> Right(d, Flatten(chunks), NEW_SHELL, quota))
  }

  /** history holds what each drain returned: every packet is delivered with the chunk that
      completes it exactly when all buffers are sound, or up to a failed write. */
  ghost predicate Timely(chunks: seq<bytes>, history: seq<Drained>, d: Drained, quota: nat) {
    && |history| <= |chunks| && d == Last(history)
    && (|history| < |chunks| ==> d.panics || d.shell.failed)
    && (!d.shell.failed ==>
          (|history| == |chunks| && Prompt(history, chunks, quota) <==> SoundChunks(chunks, |chunks|)))
  }

  /** A drain panicked: its buffer was not sound. */
  lemma FoldPanics(chunks: seq<bytes>, history: seq<Drained>, d: Drained, quota: nat)
    requires 0 < |history| <= |chunks| && d == Last(history) && d.panics && !d.shell.failed
    requires Prompt(history, chunks, quota) <==> SoundChunks(chunks, |history|)
    ensures Whole(chunks, d, quota) && Timely(chunks, history, d, quota)
  {
    assert !RightAfter(history[|history| - 1], chunks, |history|, quota);
    assert !Prompt(history, chunks, quota);
    assert !SoundChunks(chunks, |chunks|);
    if Bounded(chunks) { BoundedIsSound(chunks); }
  }

  /** A write failed: nothing that follows would have been delivered. */
  lemma FoldFails(chunks: seq<bytes>, history: seq<Drained>, d: Drained, quota: nat)
    requires |history| <= |chunks| && d == Last(history) && !d.panics && d.shell.failed && d.rest == []
    requires SameDrain(Arrived(chunks, |history|), NEW_SHELL, d.rest, d.shell, quota)
    ensures Whole(chunks, d, quota) && Timely(chunks, history, d, quota)
  {
    var k := |history|;
    FlattenAppend(chunks[..k], chunks[k..]);
    assert chunks == chunks[..k] + chunks[k..];
    FailedForGood(Arrived(chunks, k), Flatten(chunks[k..]), d.shell, quota);
  }

  lemma FoldEnds(chunks: seq<bytes>, history: seq<Drained>, quota: nat)
    requires Draining(chunks, history, quota) && |history| == |chunks|
    ensures Whole(chunks, Last(history), quota) && Timely(chunks, history, Last(history), quota)
  {
    AllArrived(chunks);
    if Bounded(chunks) {
      BoundedIsSound(chunks);
      PromptSoFar(history, chunks, quota);
    }
  }

  lemma AllArrived(chunks: seq<bytes>)
    ensures Arrived(chunks, |chunks|) == Flatten(chunks) && Arrived(chunks, 0) == []
  {
    assert chunks[..|chunks|] == chunks;
  }

  /** Folding Drain over the WRTE payloads, as the loop of Shell does. */
  method DrainChunks(chunks: seq<bytes>, quota: nat) returns (d: Drained, ghost history: seq<Drained>)
    ensures Whole(chunks, d, quota)
    ensures Timely(chunks, history, d, quota)
  {
    d, history := START, [];
    AllArrived(chunks);
    for i := 0 to |chunks|
      invariant |history| == i && d == Last(history) && Draining(chunks, history, quota)
    {
      d := Drain(d.rest + chunks[i], d.shell, quota);
      ChunkDrained(chunks, history, d, quota);
      LastSnoc(history, d);
      history := history + [d];
      if d.panics {
        FoldPanics(chunks, history, d, quota);
        return;
      }
      if d.shell.failed {
        FoldFails(chunks, history, d, quota);
        return;
      }
    }
    FoldEnds(chunks, history, quota);
  }

  /** The payloads of the packets whose id is wanted, in the order on the wire. */
  function Payloads(ps: seq<Packet>, wanted: set<byte>): bytes {
    if ps == [] then []
    else Payloads(ps[..|ps| - 1], wanted) + (if ps[|ps| - 1].id in wanted then ps[|ps| - 1].payload else [])
  }

  predicate IsStatus(p: Packet) {
    p.id == EXIT && p.payload != []
  }

  ghost predicate LastStatus(ps: seq<Packet>, i: int) {
    0 <= i < |ps| && IsStatus(ps[i]) && forall j :: i < j < |ps| ==> !IsStatus(ps[j])
  }

  /** The payloads that go to the caller's writer, one write each. */
  function Outputs(ps: seq<Packet>): seq<bytes> {
    if ps == [] then []
    else Outputs(ps[..|ps| - 1])
         + (if ps[|ps| - 1].id in {STDOUT, STDERR} then [ps[|ps| - 1].payload] else [])
  }

  /** A writer that takes quota writes fails exactly when there are more, and has then had
      the first ones. */
  lemma {:induction false} DeliversExactly(ps: seq<Packet>, quota: nat)
    ensures var r := DeliverAll(NEW_SHELL, ps, quota);
            && (r.failed <==> |Outputs(ps)| > quota)
            && r.writes == if r.failed then Outputs(ps)[..quota] else Outputs(ps)
  {
    if ps != [] {
      DeliversExactly(ps[..|ps| - 1], quota);
    }
  }

  lemma PayloadsSnoc(ps: seq<Packet>, p: Packet, wanted: set<byte>)
    ensures Payloads(ps + [p], wanted) == Payloads(ps, wanted) + (if p.id in wanted then p.payload else [])
  {
    assert (ps + [p])[..|ps|] == ps;
  }

  /** The status so far is the first byte of the last exit packet that has one. */
  ghost predicate StatusOf(ps: seq<Packet>, r: Shell) {
    && (r.sawExit <==> exists i :: 0 <= i < |ps| && IsStatus(ps[i]))
    && (r.sawExit ==> exists i :: LastStatus(ps, i) && r.exit == ps[i].payload[0])
  }

  lemma StatusSnoc(front: seq<Packet>, last: Packet, was: Shell, quota: nat)
    requires StatusOf(front, was) && !Deliver(was, last, quota).failed
    ensures StatusOf(front + [last], Deliver(was, last, quota))
  {
    var ps := front + [last];
    if IsStatus(last) {
      assert IsStatus(ps[|front|]) && LastStatus(ps, |front|);
    } else if was.sawExit {
      var i :| LastStatus(front, i) && was.exit == front[i].payload[0];
      assert LastStatus(ps, i) && ps[i] == front[i];
    }
  }

  lemma WritesSnoc(front: seq<Packet>, last: Packet, was: Shell, quota: nat)
    requires Flatten(was.writes) == Payloads(front, {STDOUT, STDERR}) && !Deliver(was, last, quota).failed
    ensures Flatten(Deliver(was, last, quota).writes) == Payloads(front + [last], {STDOUT, STDERR})
  {
    var seen, r := Payloads(front, {STDOUT, STDERR}), Deliver(was, last, quota);
    PayloadsSnoc(front, last, {STDOUT, STDERR});
    if last.id == STDOUT || last.id == STDERR {
      assert r.writes == was.writes + [last.payload];
      FlattenSnoc(was.writes, last.payload);
      assert Flatten(r.writes) == seen + last.payload;
    } else {
      assert r.writes == was.writes;
      Nothing(seen);
      assert Flatten(r.writes) == seen + [];
    }
  }

  lemma Nothing(s: bytes)
    ensures s + [] == s
  {}

  /** The merged output is the stdout and stderr payloads in their order on the wire,
      and the status is the first byte of the last exit packet that has one. */
  lemma {:induction false} ShellMeaning(ps: seq<Packet>, quota: nat)
    requires !DeliverAll(NEW_SHELL, ps, quota).failed
    ensures var r := DeliverAll(NEW_SHELL, ps, quota);
            Flatten(r.writes) == Payloads(ps, {STDOUT, STDERR}) && StatusOf(ps, r)
  {
    if ps != [] {
      var front, last := ps[..|ps| - 1], ps[|ps| - 1];
      ShellMeaning(front, quota);
      var was := DeliverAll(NEW_SHELL, front, quota);
      assert ps == front + [last];
      WritesSnoc(front, last, was, quota);
      StatusSnoc(front, last, was, quota);
    }
  }
}
