/** Writing stdin: the chunks of streamInput.Write and the closing packet, and the
    end-to-end round trip through both framings. */
module StreamInput {
  import opened Common
  import opened LittleEndian
  import opened ShellPackets
  import opened Wire

  /** Where the chunk that begins at n ends. */
  function Cut(p: bytes, n: nat, size: nat): (e: nat)
    requires n <= |p| && size > 0
    ensures n <= e <= |p| && (n < |p| ==> n < e)
  {
    if |p| - n <= size then |p| else n + size
  }

  /** p from n on, cut into packets of at most size payload bytes. */
  function ChunksFrom(p: bytes, n: nat, size: nat): seq<Packet>
    requires n <= |p| && size > 0
    decreases |p| - n
  {
    if n == |p| then []
    else [Packet(STDIN, p[n..Cut(p, n, size)])] + ChunksFrom(p, Cut(p, n, size), size)
  }

  function Chunks(p: bytes, size: nat): seq<Packet>
    requires size > 0
  {
    ChunksFrom(p, 0, size)
  }

  lemma PayloadsOne(p: Packet, wanted: set<byte>)
    ensures Payloads([p], wanted) == if p.id in wanted then p.payload else []
  {
    PayloadsSnoc([], p, wanted);
    assert [] + [p] == [p];
  }

  /** Sending the next chunk of input moves it from what is to be sent to what was. */
  lemma NextChunk(input: bytes, n: nat, size: nat, sent: seq<Packet>, start: bytes)
    requires n < |input| && size > 0 && Payloads(sent, {STDIN}) == start + input[..n]
    ensures var e := Cut(input, n, size);
            var packet := Packet(STDIN, input[n..e]);
            Payloads(sent + [packet], {STDIN}) == start + input[..e]
  {
    var e := Cut(input, n, size);
    var packet := Packet(STDIN, input[n..e]);
    PayloadsSnoc(sent, packet, {STDIN});
    Assoc(start, input[..n], input[n..e]);
    assert input[..n] + input[n..e] == input[..e];
  }

  function ToMessage(p: Packet, local: u32, remote: u32): Message {
    Message(WRTE, local, remote, EncodePacket(p))
  }

  function ToMessages(ps: seq<Packet>, local: u32, remote: u32): (ms: seq<Message>)
    ensures |ms| == |ps|
  {
    seq(|ps|, i requires 0 <= i < |ps| => ToMessage(ps[i], local, remote))
  }

  datatype WriteError = NoError | ClosedPipe | LimitTooSmall | Broken

  /** The writing end of a stream. The peer acknowledges `acks` more packets before the
      stream ends; the ghost sequence records the packets that went out. */
  class Input {
    const limit: u32
    const local: u32
    const remote: u32
    var closed: bool
    var acks: nat
    var sent: seq<Message>
    ghost var packets: seq<Packet>

    constructor (limit: u32, local: u32, remote: u32, acks: nat)
      ensures this.limit == limit && this.local == local && this.remote == remote
      ensures !closed && this.acks == acks && sent == [] && packets == []
    {
      this.limit, this.local, this.remote, this.acks := limit, local, remote, acks;
      closed, sent, packets := false, [], [];
    }

    ghost predicate Valid()
      reads this
    {
      sent == ToMessages(packets, local, remote)
    }

    /** Sends one packet and waits for its acknowledgement. When the stream ends first,
        the packet may or may not have gone out. */
    method InputPacket(id: byte, p: bytes, lost: bool) returns (err: WriteError)
      requires Valid()
      modifies this`acks, this`sent, this`packets
      ensures Valid()
      ensures err == if old(acks) > 0 then NoError else ClosedPipe
      ensures err == NoError ==> acks == old(acks) - 1
      ensures err != NoError ==> acks == 0
      ensures packets == if err == NoError || !lost then old(packets) + [Packet(id, p)] else old(packets)
    {
      if acks == 0 && lost {
        return ClosedPipe;
      }
      var m := ToMessage(Packet(id, p), local, remote);
      sent := sent + [m];
      packets := packets + [Packet(id, p)];
      if acks == 0 {
        return ClosedPipe;
      }
      acks := acks - 1;
      return NoError;
    }

    /** The packets that went out carry the first m bytes of input beyond start. */
    ghost predicate Carries(start: bytes, input: bytes, m: nat)
      requires m <= |input|
      reads this
    {
      Payloads(packets, {STDIN}) == start + input[..m]
    }

    /** One turn of Write's loop: the chunk that begins at n. */
    method SendChunk(input: bytes, n: nat, lost: bool, ghost start: bytes, ghost k: nat,
                     ghost before: seq<Packet>, ghost acksBefore: nat) returns (err: WriteError, e: nat)
      requires Valid() && n < |input| && limit > 5 && Carries(start, input, n)
      requires Halfway(input, n, k, before, acksBefore)
      modifies this`acks, this`sent, this`packets
      ensures Valid() && n < e <= |input|
      ensures err == NoError ==> Carries(start, input, e) && Halfway(input, e, k + 1, before, acksBefore)
      ensures err != NoError ==> Carries(start, input, n) || Carries(start, input, e)
      ensures err != NoError ==> Delivered(input, lost, err, before, acksBefore)
    {
      NextChunk(input, n, limit - 5, packets, start);
      TakeChunk(input, n, k, limit - 5, before);
      e := Cut(input, n, limit - 5);
      err := InputPacket(STDIN, input[n..e], lost);
    }

    /** streamInput.Write. It succeeds exactly when every chunk is acknowledged, and then
        everything went out, cut to the limit. Otherwise the chunks with an acknowledgement
        went out, and one more unless that was lost; they carry at least the n bytes
        reported, and a prefix of the rest. */
    method Write(input: bytes, lost: bool) returns (n: nat, err: WriteError)
      requires Valid()
      modifies this`acks, this`sent, this`packets
      ensures Valid() && n <= |input|
      ensures old(closed) ==> n == 0 && err == ClosedPipe && packets == old(packets)
      ensures !old(closed) && limit <= 5 ==>
        n == 0 && err == (if input == [] then NoError else LimitTooSmall) && packets == old(packets)
      ensures !old(closed) && limit > 5 ==> Delivered(input, lost, err, old(packets), old(acks))
      ensures err == NoError ==> n == |input|
      ensures exists m: nat :: n <= m <= |input| && Carries(Payloads(old(packets), {STDIN}), input, m)
    {
      n := 0;
      ghost var start, k := Payloads(packets, {STDIN}), 0;
      assert Carries(start, input, 0);
      if closed {
        return 0, ClosedPipe;
      }
      while n < |input|
        invariant Valid() && n <= |input| && Carries(start, input, n)
        invariant limit > 5 ==> Halfway(input, n, k, old(packets), old(acks))
        invariant limit <= 5 ==> n == 0 && packets == old(packets)
      {
        if limit - 5 <= 0 {
          return n, LimitTooSmall;
        }
        var e;
        err, e := SendChunk(input, n, lost, start, k, old(packets), old(acks));
        if err != NoError {
          return n, err;
        }
        n, k := e, k + 1;
      }
      err := NoError;
    }

    /** k chunks have gone out and been acknowledged; the next begins at n. */
    ghost predicate Halfway(input: bytes, n: nat, k: nat, before: seq<Packet>, acksBefore: nat)
      requires limit > 5
      reads this
    {
      var all := Chunks(input, limit - 5);
      && n <= |input| && k <= |all| && ChunksFrom(input, n, limit - 5) == all[k..]
      && packets == before + all[..k] && acks + k == acksBefore
    }

    /** What Write has done to an open stream that had acksBefore acknowledgements to come. */
    ghost predicate Delivered(input: bytes, lost: bool, err: WriteError, before: seq<Packet>, acksBefore: nat)
      requires limit > 5
      reads this
    {
      var all := Chunks(input, limit - 5);
      if acksBefore >= |all| then
        err == NoError && acks == acksBefore - |all| && packets == before + all
      else
        err == ClosedPipe && packets == before + all[..acksBefore + (if lost then 0 else 1)]
    }

    /** streamInput.Close: the first call sends one close-stdin packet, later calls none. */
    method Close(lost: bool) returns (err: WriteError)
      requires Valid()
      modifies this
      ensures Valid() && closed
      ensures old(closed) ==> err == NoError && packets == old(packets)
      ensures !old(closed) ==>
        && err == (if old(acks) > 0 then NoError else ClosedPipe)
        && packets == old(packets) + (if err == NoError || !lost then [Packet(CLOSE_STDIN, [])] else [])
    {
      if closed {
        return NoError;
      }
      closed := true;
      err := InputPacket(CLOSE_STDIN, [], lost);
    }
  }

  lemma TakeChunk(input: bytes, n: nat, k: nat, size: nat, before: seq<Packet>)
    requires n < |input| && size > 0 && k <= |Chunks(input, size)|
    requires ChunksFrom(input, n, size) == Chunks(input, size)[k..]
    ensures var all, e := Chunks(input, size), Cut(input, n, size);
            && k < |all| && all[k] == Packet(STDIN, input[n..e]) && ChunksFrom(input, e, size) == all[k + 1..]
            && (before + all[..k]) + [all[k]] == before + all[..k + 1]
  {
    var all := Chunks(input, size);
    assert all[k..] != [];
    assert all[k] == all[k..][0] && all[k + 1..] == all[k..][1..];
    assert all[..k + 1] == all[..k] + [all[k]];
    Assoc(before, all[..k], [all[k]]);
  }

  // ---------- both framings, end to end ----------

  /** What a session that writes each of writes and closes sends, packet by packet. */
  function Session(writes: seq<bytes>, limit: u32): seq<Packet>
    requires limit > 5
  {
    if writes == [] then [Packet(CLOSE_STDIN, [])]
    else Chunks(writes[0], limit - 5) + Session(writes[1..], limit)
  }

  function FlattenFront(parts: seq<bytes>): bytes {
    if parts == [] then [] else parts[0] + FlattenFront(parts[1..])
  }

  lemma {:induction false} PayloadsAppend(a: seq<Packet>, b: seq<Packet>, wanted: set<byte>)
    ensures Payloads(a + b, wanted) == Payloads(a, wanted) + Payloads(b, wanted)
  {
    if b == [] {
      assert a + b == a;
    } else {
      PayloadsAppend(a, b[..|b| - 1], wanted);
      assert (a + b)[..|a + b| - 1] == a + b[..|b| - 1];
    }
  }

  ghost predicate StdinChunks(cs: seq<Packet>, size: nat) {
    forall c :: c in cs ==> c.id == STDIN && 0 < |c.payload| <= size
  }

  lemma ChunkFirst(c: Packet, cs: seq<Packet>)
    requires c.id == STDIN
    ensures Payloads([c] + cs, {STDIN}) == c.payload + Payloads(cs, {STDIN})
  {
    PayloadsAppend([c], cs, {STDIN});
    PayloadsOne(c, {STDIN});
  }

  lemma {:induction false} ChunksCarry(p: bytes, n: nat, size: nat)
    requires n <= |p| && size > 0
    ensures Payloads(ChunksFrom(p, n, size), {STDIN}) == p[n..]
    decreases |p| - n
  {
    if n < |p| {
      var e := Cut(p, n, size);
      ChunksCarry(p, e, size);
      ChunkFirst(Packet(STDIN, p[n..e]), ChunksFrom(p, e, size));
      Glue(p, n, e, |p|);
    }
  }

  lemma {:induction false} ChunksFit(p: bytes, n: nat, size: nat)
    requires n <= |p| && size > 0
    ensures StdinChunks(ChunksFrom(p, n, size), size)
    decreases |p| - n
  {
    if n < |p| {
      ChunksFit(p, Cut(p, n, size), size);
    }
  }

  /** Only the last chunk of a write may be short. */
  lemma {:induction false} ChunksAreFull(p: bytes, n: nat, size: nat, i: nat)
    requires n <= |p| && size > 0 && i + 1 < |ChunksFrom(p, n, size)|
    ensures |ChunksFrom(p, n, size)[i].payload| == size
    decreases |p| - n
  {
    var e := Cut(p, n, size);
    assert ChunksFrom(p, n, size)[1..] == ChunksFrom(p, e, size);
    if i == 0 {
      assert e < |p| && e == n + size;
    } else {
      ChunksAreFull(p, e, size, i - 1);
    }
  }

  lemma ChunksThen(cs: seq<Packet>, more: seq<Packet>, size: nat)
    requires StdinChunks(cs, size) && more != [] && StdinChunks(more[..|more| - 1], size)
    ensures StdinChunks((cs + more)[..|cs + more| - 1], size)
  {
    assert (cs + more)[..|cs + more| - 1] == cs + more[..|more| - 1];
  }

  /** Only the last packet of a session closes stdin; the others carry the bytes. */
  lemma {:induction false} SessionMeaning(writes: seq<bytes>, limit: u32)
    requires limit > 5
    ensures var ps := Session(writes, limit);
            && ps != [] && ps[|ps| - 1] == Packet(CLOSE_STDIN, [])
            && Payloads(ps, {STDIN}) == FlattenFront(writes)
            && StdinChunks(ps[..|ps| - 1], limit - 5)
  {
    if writes == [] {
      PayloadsOne(Packet(CLOSE_STDIN, []), {STDIN});
    } else {
      var cs, more := Chunks(writes[0], limit - 5), Session(writes[1..], limit);
      ChunksCarry(writes[0], 0, limit - 5);
      ChunksFit(writes[0], 0, limit - 5);
      SessionMeaning(writes[1..], limit);
      PayloadsAppend(cs, more, {STDIN});
      ChunksThen(cs, more, limit - 5);
    }
  }

  /** The bytes of all WRTE payloads, in order. */
  function Carried(ms: seq<Message>): bytes {
    if ms == [] then [] else ms[0].data + Carried(ms[1..])
  }

  lemma {:induction false} CarriedPackets(ps: seq<Packet>, local: u32, remote: u32)
    ensures Carried(ToMessages(ps, local, remote)) == EncodePackets(ps)
  {
    if ps != [] {
      CarriedPackets(ps[1..], local, remote);
      assert ToMessages(ps, local, remote)[1..] == ToMessages(ps[1..], local, remote);
    }
  }

  /** For any stdin bytes in any number of writes and any negotiated limit above five:
      the messages sent stay within the limit, read back from the wire as they were, with
      or without checksums, and parse into exactly the original bytes, then one close. */
  lemma EndToEnd(writes: seq<bytes>, limit: u32, local: u32, remote: u32, verify: bool)
    requires limit > 5
    ensures var ps := Session(writes, limit);
            var ms := ToMessages(ps, local, remote);
            && (forall m :: m in ms ==> |m.data| <= limit)
            && DecodeAll(EncodeAll(ms), limit, verify) == (ms, Eof)
            && Parse(Carried(ms)) == Parsed(ps, [])
            && Payloads(ps, {STDIN}) == FlattenFront(writes)
            && ps != [] && ps[|ps| - 1] == Packet(CLOSE_STDIN, [])
            && StdinChunks(ps[..|ps| - 1], limit - 5)
  {
    var ps := Session(writes, limit);
    SessionMeaning(writes, limit);
    WithinLimit(ps, limit, local, remote);
    TrafficRoundTrip(ToMessages(ps, local, remote), limit, verify);
    CarriedPackets(ps, local, remote);
    assert EncodePackets(ps) + [] == EncodePackets(ps);
    ParseIsUnique(ps, []);
  }

  lemma WithinLimit(ps: seq<Packet>, limit: u32, local: u32, remote: u32)
    requires limit > 5 && ps != [] && ps[|ps| - 1] == Packet(CLOSE_STDIN, [])
    requires StdinChunks(ps[..|ps| - 1], limit - 5)
    ensures forall m :: m in ToMessages(ps, local, remote) ==> |m.data| <= limit
    ensures Encodable(ps)
  {
    forall i | 0 <= i < |ps| ensures |ps[i].payload| + 5 <= limit {
      assert i < |ps| - 1 ==> ps[i] in ps[..|ps| - 1];
    }
  }

  /** The session as it is written: it succeeds exactly when there is an acknowledgement
      for every packet, and what went out then is the session of EndToEnd. */
  method WriteSession(writes: seq<bytes>, limit: u32, local: u32, remote: u32, acks: nat)
    returns (sent: seq<Message>, ok: bool)
    requires limit > 5
    ensures ok <==> acks >= |Session(writes, limit)|
    ensures ok ==> sent == ToMessages(Session(writes, limit), local, remote)
  {
    var w := new Input(limit, local, remote, acks);
    for i := 0 to |writes|
      invariant w.Valid() && !w.closed && w.limit == limit && w.local == local && w.remote == remote
      invariant w.packets + Session(writes[i..], limit) == Session(writes, limit)
      invariant w.acks + |w.packets| == acks
    {
      ghost var before := w.packets;
      SessionStep(before, writes, i, limit);
      var n, err := w.Write(writes[i], false);
      if err != NoError {
        return w.sent, false;
      }
    }
    assert writes[|writes|..] == [];
    var err := w.Close(false);
    sent, ok := w.sent, err == NoError;
  }

  lemma SessionStep(before: seq<Packet>, writes: seq<bytes>, i: nat, limit: u32)
    requires i < |writes| && limit > 5
    ensures (before + Chunks(writes[i], limit - 5)) + Session(writes[i + 1..], limit)
         == before + Session(writes[i..], limit)
  {
    assert writes[i..][1..] == writes[i + 1..];
    assert writes[i..][0] == writes[i];
  }
}
