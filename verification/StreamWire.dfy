/** The strict reader on the bytes of its connection: the messages that recv takes off the
    wire are what the read loop sees. */
module StreamWire {
  import opened Common
  import opened LittleEndian
  import opened ShellPackets
  import opened Wire
  import opened StreamRead

  /** The stream's ids; and whether the k-th message received finds the connection able to
      send its acknowledgement, or the acknowledgement channel with room for it. */
  datatype Side = Side(local: u32, remote: u32, ready: nat -> bool)

  function Seen(m: Message, k: nat, at: Side): Incoming {
    if m.arg1 != at.local || m.arg0 != at.remote then Foreign
    else if m.command == OKAY then Okay(at.ready(k))
    else if m.command == WRTE then Wrte(m.data, at.ready(k))
    else if m.command == CLSE then Clse
    else Other
  }

  function Ending(o: Outcome): Incoming {
    if o == Eof then EndOfFile else RecvError
  }

  function SeenAll(ms: seq<Message>, at: Side): seq<Incoming> {
    seq(|ms|, k requires 0 <= k < |ms| => Seen(ms[k], k, at))
  }

  function Events(ms: seq<Message>, end: Outcome, at: Side): (r: seq<Incoming>)
    ensures |r| == |ms| + 1
  {
    SeenAll(ms, at) + [Ending(end)]
  }

  // ---------- a clean connection ----------

  predicate Ours(m: Message, at: Side) {
    m.arg0 == at.remote && m.arg1 == at.local
  }

  /** The payloads of the WRTE messages, one after the other. */
  function Data(ms: seq<Message>): bytes {
    if ms == [] then []
    else Data(ms[..|ms| - 1]) + (if ms[|ms| - 1].command == WRTE then ms[|ms| - 1].data else [])
  }

  /** The first n messages are this stream's, and carry exactly the encoding of ps: well-formed
      packets, one of them the exit packet with code c. Then comes a close, or a plain EOF. */
  ghost predicate CleanWire(ms: seq<Message>, end: Outcome, at: Side, n: nat, ps: seq<Packet>, quota: nat, c: int) {
    && n <= |ms|
    && (forall k :: 0 <= k < n ==> Ours(ms[k], at) && ms[k].command in {OKAY, WRTE} && at.ready(k))
    && (if n < |ms| then Ours(ms[n], at) && ms[n].command == CLSE else end == Eof)
    && Data(ms[..n]) == EncodePackets(ps)
    && WellFormed(ps) && Payloads(ps, {EXIT}) == [c]
    && Count(ps, {STDOUT, STDERR}) <= quota
  }

  /** The bytes of the connection decode to such messages. */
  ghost predicate WireReports(s: bytes, limit: u32, verify: bool, at: Side, quota: nat,
                              c: int, out: bytes, errOut: bytes) {
    exists n: nat, ps: seq<Packet> ::
      && CleanWire(DecodeAll(s, limit, verify).0, DecodeAll(s, limit, verify).1, at, n, ps, quota, c)
      && out == Payloads(ps, {STDOUT}) && errOut == Payloads(ps, {STDERR})
  }

  lemma {:induction false} DataIsReceived(ms: seq<Message>, end: Outcome, at: Side, n: nat)
    requires n <= |ms| && forall k :: 0 <= k < n ==> Ours(ms[k], at) && ms[k].command in {OKAY, WRTE}
    ensures Received(Events(ms, end, at)[..n]) == Data(ms[..n])
  {
    if n > 0 {
      DataIsReceived(ms, end, at, n - 1);
      ReceivedSnoc(Events(ms, end, at), n - 1);
      assert ms[..n][..n - 1] == ms[..n - 1];
    }
  }

  lemma CarryingIsOurs(ms: seq<Message>, end: Outcome, at: Side, k: nat)
    requires k < |ms|
    ensures Carrying(Events(ms, end, at)[k]) <==>
            Ours(ms[k], at) && ms[k].command in {OKAY, WRTE} && at.ready(k)
  {}

  lemma EndIsClose(ms: seq<Message>, end: Outcome, at: Side, n: nat)
    requires n <= |ms|
    ensures Events(ms, end, at)[n].Clse? || Events(ms, end, at)[n].EndOfFile? <==>
            if n < |ms| then Ours(ms[n], at) && ms[n].command == CLSE else end == Eof
  {}

  lemma CleanIsCleanWire(ms: seq<Message>, end: Outcome, at: Side, n: nat, ps: seq<Packet>, quota: nat, c: int)
    ensures Clean(Events(ms, end, at), n, ps, quota, c) <==> CleanWire(ms, end, at, n, ps, quota, c)
  {
    if n <= |ms| {
      forall k | 0 <= k < n
        ensures Carrying(Events(ms, end, at)[k]) <==>
                Ours(ms[k], at) && ms[k].command in {OKAY, WRTE} && at.ready(k) {
        CarryingIsOurs(ms, end, at, k);
      }
      EndIsClose(ms, end, at, n);
      if forall k :: 0 <= k < n ==> Ours(ms[k], at) && ms[k].command in {OKAY, WRTE} && at.ready(k) {
        DataIsReceived(ms, end, at, n);
      }
    }
  }

  lemma ReportsIsWireReports(s: bytes, limit: u32, verify: bool, at: Side, quota: nat,
                             c: int, out: bytes, errOut: bytes)
    ensures var (ms, end) := DecodeAll(s, limit, verify);
            Reports(Events(ms, end, at), quota, c, out, errOut) <==>
            WireReports(s, limit, verify, at, quota, c, out, errOut)
  {
    var (ms, end) := DecodeAll(s, limit, verify);
    forall n: nat, ps
      ensures Clean(Events(ms, end, at), n, ps, quota, c) <==> CleanWire(ms, end, at, n, ps, quota, c) {
      CleanIsCleanWire(ms, end, at, n, ps, quota, c);
    }
  }

  // ---------- reading ----------

  /** The messages ms have been taken off start, and left is to come. */
  ghost predicate TakenOff(start: bytes, ms: seq<Message>, left: bytes, limit: u32, verify: bool) {
    DecodeAll(start, limit, verify) == (ms + DecodeAll(left, limit, verify).0, DecodeAll(left, limit, verify).1)
  }

  lemma TakeOff(start: bytes, ms: seq<Message>, left: bytes, limit: u32, verify: bool)
    requires TakenOff(start, ms, left, limit, verify)
    ensures var (o, rest) := Decode(left, limit, verify);
            if o.Got? then TakenOff(start, ms + [o.m], rest, limit, verify)
            else DecodeAll(start, limit, verify) == (ms, o)
  {
    var (o, rest) := Decode(left, limit, verify);
    if o.Got? {
      Assoc(ms, [o.m], DecodeAll(rest, limit, verify).0);
    } else {
      assert ms + [] == ms;
    }
  }

  lemma SeenSnoc(ms: seq<Message>, m: Message, at: Side)
    ensures SeenAll(ms + [m], at) == SeenAll(ms, at) + [Seen(m, |ms|, at)]
  {}

  /** recv, until it fails. */
  method ReceiveAll(r: Reader, limit: u32, verify: bool, at: Side) returns (events: seq<Incoming>)
    modifies r
    ensures var (ms, end) := DecodeAll(old(r.pending), limit, verify); events == Events(ms, end, at)
  {
    ghost var start, left, ms := r.pending, r.pending, [];
    assert [] + DecodeAll(left, limit, verify).0 == DecodeAll(left, limit, verify).0;
    events := [];
    var o := ReadMessage(r, limit, verify);
    while o.Got?
      invariant (o, r.pending) == Decode(left, limit, verify)
      invariant TakenOff(start, ms, left, limit, verify) && events == SeenAll(ms, at)
      decreases |left|
    {
      TakeOff(start, ms, left, limit, verify);
      SeenSnoc(ms, o.m, at);
      events := events + [Seen(o.m, |events|, at)];
      ms, left := ms + [o.m], r.pending;
      o := ReadMessage(r, limit, verify);
    }
    TakeOff(start, ms, left, limit, verify);
    events := events + [Ending(o)];
  }

  /** Stream.read on the connection's bytes. An exit code is returned exactly for a clean
      connection, and then the two queues hold the stdout and the stderr payloads, each in
      order. The loop stops at the first message that ends it; what recv would have taken off
      the wire behind that has no influence. */
  method ReadWire(input: bytes, limit: u32, verify: bool, at: Side, quota: nat)
    returns (res: Result, s: StreamRead.Output)
    ensures res.Exited? ==> WireReports(input, limit, verify, at, quota, res.code, s.out, s.errOut)
    ensures forall c, out, errOut :: WireReports(input, limit, verify, at, quota, c, out, errOut) ==>
              res == Exited(c) && s.out == out && s.errOut == errOut
  {
    var r := new Reader(input);
    var events := ReceiveAll(r, limit, verify, at);
    res, s := Read(events, quota);
    forall c, out, errOut
      ensures Reports(events, quota, c, out, errOut) <==>
              WireReports(input, limit, verify, at, quota, c, out, errOut) {
      ReportsIsWireReports(input, limit, verify, at, quota, c, out, errOut);
    }
  }

  // ---------- a connection that is cut ----------

  /** What is left of the bytes when recv first fails. */
  function Tail(s: bytes, limit: u32, verify: bool): bytes
    decreases |s|
  {
    var (r, rest) := Decode(s, limit, verify);
    if r.Got? then Tail(rest, limit, verify) else s
  }

  /** The connection counts as ended exactly when nothing is left, or a header alone whose
      payload never came. */
  lemma {:induction false} EndsExactly(s: bytes, limit: u32, verify: bool)
    ensures DecodeAll(s, limit, verify).1 == Eof <==>
            Tail(s, limit, verify) == [] || LoneHeader(Tail(s, limit, verify), limit)
    decreases |s|
  {
    var (r, rest) := Decode(s, limit, verify);
    if r.Got? {
      EndsExactly(rest, limit, verify);
    } else {
      EofExactly(s, limit, verify);
    }
  }

  lemma HeaderIsAlone(m: Message, sum: u32, limit: u32)
    requires 0 < |m.data| <= limit
    ensures LoneHeader(Header(m, sum), limit)
  {
    assert Header(m, sum) + [] == Header(m, sum);
    WordsOfHeader(m, sum, []);
  }

  lemma NothingMore(s: bytes, limit: u32, verify: bool)
    requires LoneHeader(s, limit)
    ensures DecodeAll(s, limit, verify) == ([], Eof)
  {
    EofExactly(s, limit, verify);
  }

  /** Cut right behind the header of one more message, a connection reads as if that message
      had never been sent. */
  lemma CutBehindHeader(ms: seq<Message>, m: Message, sum: u32, limit: u32, verify: bool)
    requires (forall x :: x in ms ==> |x.data| <= limit) && 0 < |m.data| <= limit
    ensures DecodeAll(EncodeAll(ms) + Header(m, sum), limit, verify) == DecodeAll(EncodeAll(ms), limit, verify)
  {
    HeaderIsAlone(m, sum, limit);
    NothingMore(Header(m, sum), limit, verify);
    TrafficThen(ms, Header(m, sum), limit, verify);
    TrafficRoundTrip(ms, limit, verify);
    assert ms + [] == ms;
  }

  /** The exit packet of a command that succeeded without output. */
  function ExitMessage(at: Side): Message {
    Message(WRTE, at.remote, at.local, EncodePacket(Packet(EXIT, [0])))
  }

  lemma ExitReports(s: bytes, limit: u32, verify: bool, at: Side, quota: nat)
    requires DecodeAll(s, limit, verify) == ([ExitMessage(at)], Eof) && at.ready(0)
    ensures WireReports(s, limit, verify, at, quota, 0, [], [])
  {
    ExitAlone(ExitMessage(at));
    assert CleanWire([ExitMessage(at)], Eof, at, 1, [Packet(EXIT, [0])], quota, 0);
  }

  /** So an exit code is reported although a message is missing: here the exit packet has
      come, and any further message is cut behind its header. */
  lemma MissingMessageUnnoticed(at: Side, limit: u32, verify: bool, m: Message, sum: u32, quota: nat)
    requires 6 <= limit && 0 < |m.data| <= limit && at.ready(0)
    ensures WireReports(EncodeAll([ExitMessage(at)]) + Header(m, sum), limit, verify, at, quota, 0, [], [])
  {
    CutBehindHeader([ExitMessage(at)], m, sum, limit, verify);
    TrafficRoundTrip([ExitMessage(at)], limit, verify);
    ExitReports(EncodeAll([ExitMessage(at)]) + Header(m, sum), limit, verify, at, quota);
  }

  lemma ExitAlone(exit: Message)
    requires exit.command == WRTE && exit.data == EncodePacket(Packet(EXIT, [0]))
    ensures var ps := [Packet(EXIT, [0])];
            && Data([exit][..1]) == EncodePackets(ps) && WellFormed(ps) && Payloads(ps, {EXIT}) == [0]
            && Payloads(ps, {STDOUT}) == [] && Payloads(ps, {STDERR}) == [] && Count(ps, {STDOUT, STDERR}) == 0
  {
    var ps := [Packet(EXIT, [0])];
    assert [exit][..1] == [exit] && [exit][..0] == [];
    assert ps[..0] == [] && ps[1..] == [];
    assert EncodePackets(ps) == EncodePacket(ps[0]) + EncodePackets([]);
  }
}
