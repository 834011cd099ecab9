/** The strict reader of a dedicated adb stream: it reports an exit code only for a
    stream that is, from its first byte to its last, well-formed shell packets with
    exactly one exit packet. */
module StreamRead {
  import opened Common
  import opened LittleEndian
  import opened ShellPackets
  import opened Wire

  /** One message as the read loop sees it: whether the acknowledgement of a WRTE could
      be sent, and whether the ack channel had room for an OKAY. */
  datatype Incoming =
    | Wrte(data: bytes, replied: bool)
    | Okay(room: bool)
    | Clse
    | EndOfFile
    | RecvError
    | Foreign
    | Other

  datatype Result = Exited(code: int) | Broken

  /** The two output queues, how many appends they took, and the exit code so far. */
  datatype Output = Output(out: bytes, errOut: bytes, appends: nat, exit: int, failed: bool)

  const NEW_OUTPUT := Output([], [], 0, -1, false)

  /** One packet's effect; the queues take quota appends before one is refused, be it
      for overflow or because the consumer closed its end. */
  function Accept(s: Output, p: Packet, quota: nat): Output {
    if s.failed then s
    else if |p.payload| > MAX_PAYLOAD then s.(failed := true)
    else if p.id == STDOUT then
      if s.appends < quota then s.(out := s.out + p.payload, appends := s.appends + 1) else s.(failed := true)
    else if p.id == STDERR then
      if s.appends < quota then s.(errOut := s.errOut + p.payload, appends := s.appends + 1) else s.(failed := true)
    else if p.id == EXIT then
      if |p.payload| != 1 || s.exit >= 0 then s.(failed := true) else s.(exit := p.payload[0])
    else s.(failed := true)
  }

  function AcceptAll(s: Output, ps: seq<Packet>, quota: nat): Output {
    if ps == [] then s else Accept(AcceptAll(s, ps[..|ps| - 1], quota), ps[|ps| - 1], quota)
  }

  lemma {:induction false} AcceptAppend(s: Output, a: seq<Packet>, b: seq<Packet>, quota: nat)
    ensures AcceptAll(s, a + b, quota) == AcceptAll(AcceptAll(s, a, quota), b, quota)
  {
    if b == [] {
      assert a + b == a;
    } else {
      AcceptAppend(s, a, b[..|b| - 1], quota);
      assert (a + b)[..|a + b| - 1] == a + b[..|b| - 1];
    }
  }

  lemma AcceptCons(s: Output, p: Packet, ps: seq<Packet>, quota: nat)
    ensures AcceptAll(s, [p] + ps, quota) == AcceptAll(Accept(s, p, quota), ps, quota)
  {
    AcceptAppend(s, [p], ps, quota);
    assert [p][..0] == [];
  }

  lemma {:induction false} RefusalIsSticky(s: Output, ps: seq<Packet>, quota: nat)
    requires s.failed
    ensures AcceptAll(s, ps, quota) == s
  {
    if ps != [] {
      RefusalIsSticky(s, ps[..|ps| - 1], quota);
    }
  }

  // ---------- what acceptance means ----------

  function Count(ps: seq<Packet>, wanted: set<byte>): nat {
    if ps == [] then 0
    else Count(ps[..|ps| - 1], wanted) + (if ps[|ps| - 1].id in wanted then 1 else 0)
  }

  predicate PacketOk(p: Packet) {
    p.id in {STDOUT, STDERR, EXIT} && |p.payload| <= MAX_PAYLOAD && (p.id == EXIT ==> |p.payload| == 1)
  }

  ghost predicate WellFormed(ps: seq<Packet>) {
    (forall p :: p in ps ==> PacketOk(p)) && Count(ps, {EXIT}) <= 1
  }

  lemma WellFormedSnoc(front: seq<Packet>, last: Packet)
    ensures WellFormed(front + [last]) <==>
            WellFormed(front) && PacketOk(last) && (last.id == EXIT ==> Count(front, {EXIT}) == 0)
  {
    var ps := front + [last];
    assert ps[..|front|] == front && ps[|front|] == last;
    assert forall p :: p in front ==> p in ps;
  }

  /** How the accepted output reads, packet by packet. */
  ghost predicate Accepted(ps: seq<Packet>, r: Output) {
    && r.out == Payloads(ps, {STDOUT}) && r.errOut == Payloads(ps, {STDERR})
    && r.appends == Count(ps, {STDOUT, STDERR})
    && Payloads(ps, {EXIT}) == (if r.exit >= 0 then [r.exit] else [])
    && (if r.exit >= 0 then Count(ps, {EXIT}) == 1 && r.exit < 256 else Count(ps, {EXIT}) == 0)
  }

  lemma AcceptedSnoc(front: seq<Packet>, last: Packet, was: Output, quota: nat)
    requires Accepted(front, was) && !was.failed
    ensures var r := Accept(was, last, quota);
            && (!r.failed <==> PacketOk(last) && (last.id == EXIT ==> Count(front, {EXIT}) == 0)
                               && (last.id != EXIT ==> Count(front, {STDOUT, STDERR}) < quota))
            && (!r.failed ==> Accepted(front + [last], r))
  {
    var ps := front + [last];
    assert ps[..|front|] == front && ps[|front|] == last;
  }

  /** Packets are accepted exactly when they are well formed and fit the queues. */
  lemma {:induction false} AcceptMeaning(ps: seq<Packet>, quota: nat)
    ensures var r := AcceptAll(NEW_OUTPUT, ps, quota);
      && (!r.failed <==> WellFormed(ps) && Count(ps, {STDOUT, STDERR}) <= quota)
      && (!r.failed ==> Accepted(ps, r))
  {
    if ps != [] {
      var front, last := ps[..|ps| - 1], ps[|ps| - 1];
      AcceptMeaning(front, quota);
      assert ps == front + [last];
      WellFormedSnoc(front, last);
      var was := AcceptAll(NEW_OUTPUT, front, quota);
      if !was.failed {
        AcceptedSnoc(front, last, was, quota);
      }
    }
  }

  // ---------- the inner loop ----------

  predicate Oversize(buf: bytes) {
    |buf| >= 5 && Length(buf) > MAX_PAYLOAD
  }

  method AcceptPacket(id: byte, p: bytes, s: Output, quota: nat) returns (r: Output)
    requires !s.failed && |p| <= MAX_PAYLOAD
    ensures r == Accept(s, Packet(id, p), quota)
  {
    if id == STDOUT && s.appends < quota {
      return s.(out := s.out + p, appends := s.appends + 1);
    } else if id == STDERR && s.appends < quota {
      return s.(errOut := s.errOut + p, appends := s.appends + 1);
    } else if id == EXIT && |p| == 1 && s.exit < 0 {
      return s.(exit := p[0]);
    }
    return s.(failed := true);
  }

  /** Consumes the whole packets of pending. An oversize length fails as soon as its
      header has arrived. */
  method AcceptPackets(input: bytes, s: Output, quota: nat) returns (pending: bytes, r: Output)
    requires !s.failed
    ensures Consumed(input, s, pending, r, quota)
  {
    pending, r := input, s;
    while |pending| >= 5
      invariant !r.failed
      invariant AcceptAll(s, Parse(input).packets, quota) == AcceptAll(r, Parse(pending).packets, quota)
      invariant Parse(input).rest == Parse(pending).rest
      decreases |pending|
    {
      var length := Uint32(pending[1..5]);
      if length > MAX_PAYLOAD {
        r := OversizeFails(pending, r, quota);
        return;
      }
      if |pending| < 5 + length {
        break;
      }
      ghost var more := Parse(pending[5 + length..]).packets;
      AcceptCons(r, First(pending), more, quota);
      r := AcceptPacket(pending[0], pending[5..5 + length], r, quota);
      if r.failed {
        RefusalIsSticky(r, more, quota);
        return;
      }
      pending := pending[5 + length..];
    }
  }

  method OversizeFails(pending: bytes, s: Output, quota: nat) returns (r: Output)
    requires Oversize(pending) && !s.failed
    ensures r.failed
    ensures AcceptAll(s, Parse(pending).packets, quota).failed || Oversize(Parse(pending).rest)
  {
    r := s.(failed := true);
    if Complete(pending) {
      ghost var more := Parse(pending[5 + Length(pending)..]).packets;
      AcceptCons(s, First(pending), more, quota);
      RefusalIsSticky(r, more, quota);
    }
  }

  // ---------- the read loop ----------

  predicate Carrying(e: Incoming) {
    match e
    case Wrte(_, replied) => replied
    case Okay(room) => room
    case _ => false
  }

  function Received(events: seq<Incoming>): bytes {
    if events == [] then []
    else Received(events[..|events| - 1]) + (if events[|events| - 1].Wrte? then events[|events| - 1].data else [])
  }

  lemma ReceivedSnoc(events: seq<Incoming>, i: nat)
    requires i < |events|
    ensures Received(events[..i + 1]) == Received(events[..i]) + (if events[i].Wrte? then events[i].data else [])
  {
    assert events[..i + 1][..i] == events[..i];
  }

  lemma {:induction false} ReceivedAppend(a: seq<Incoming>, b: seq<Incoming>)
    ensures Received(a + b) == Received(a) + Received(b)
  {
    if b == [] {
      assert a + b == a;
    } else {
      ReceivedAppend(a, b[..|b| - 1]);
      assert (a + b)[..|a + b| - 1] == a + b[..|b| - 1];
    }
  }

  /** The events up to the n-th carry exactly the encoding of ps - well-formed packets,
      one of them the exit packet with code c - and then the stream closes or ends. */
  ghost predicate Clean(events: seq<Incoming>, n: nat, ps: seq<Packet>, quota: nat, c: int) {
    && n < |events| && (forall i :: 0 <= i < n ==> Carrying(events[i]))
    && (events[n].Clse? || events[n].EndOfFile?)
    && Received(events[..n]) == EncodePackets(ps)
    && WellFormed(ps) && Payloads(ps, {EXIT}) == [c]
    && Count(ps, {STDOUT, STDERR}) <= quota
  }

  ghost predicate Reports(events: seq<Incoming>, quota: nat, c: int, out: bytes, errOut: bytes) {
    exists n: nat, ps: seq<Packet> ::
      && Clean(events, n, ps, quota, c)
      && out == Payloads(ps, {STDOUT}) && errOut == Payloads(ps, {STDERR})
  }

  lemma Absorb(before: bytes, data: bytes, s: Output, quota: nat)
    requires s == AcceptAll(NEW_OUTPUT, Parse(before).packets, quota)
    ensures var next := Parse(Parse(before).rest + data);
            && Parse(before + data).rest == next.rest
            && AcceptAll(NEW_OUTPUT, Parse(before + data).packets, quota) == AcceptAll(s, next.packets, quota)
  {
    ParseContinues(before, data);
    AcceptAppend(NEW_OUTPUT, Parse(before).packets, Parse(Parse(before).rest + data).packets, quota);
  }

  /** Reading has consumed the first i events and nothing was refused. */
  ghost predicate Reading(events: seq<Incoming>, i: nat, quota: nat, s: Output, pending: bytes) {
    && i <= |events| && (forall j :: 0 <= j < i ==> Carrying(events[j]))
    && !s.failed && s == AcceptAll(NEW_OUTPUT, Parse(Received(events[..i])).packets, quota)
    && pending == Parse(Received(events[..i])).rest && !Oversize(pending)
  }

  /** What AcceptPackets made of the bytes that one more message brought. */
  ghost predicate Consumed(buf: bytes, s: Output, pending: bytes, r: Output, quota: nat) {
    && (r.failed <==> AcceptAll(s, Parse(buf).packets, quota).failed || Oversize(Parse(buf).rest))
    && (!r.failed ==> r == AcceptAll(s, Parse(buf).packets, quota) && pending == Parse(buf).rest)
  }

  lemma WrteGoesOn(events: seq<Incoming>, i: nat, quota: nat, was: bytes, s: Output, pending: bytes, r: Output)
    requires i < |events| && Reading(events, i, quota, s, was) && Carrying(events[i]) && events[i].Wrte?
    requires Consumed(was + events[i].data, s, pending, r, quota)
    ensures if r.failed then Hopeless(events, quota) else Reading(events, i + 1, quota, r, pending)
  {
    ReceivedSnoc(events, i);
    Absorb(Received(events[..i]), events[i].data, s, quota);
    if r.failed {
      BadPrefix(events, i + 1, quota);
    }
  }

  lemma OkayGoesOn(events: seq<Incoming>, i: nat, quota: nat, was: bytes, s: Output)
    requires i < |events| && Reading(events, i, quota, s, was) && Carrying(events[i]) && !events[i].Wrte?
    ensures Reading(events, i + 1, quota, s, was)
  {
    ReceivedSnoc(events, i);
    assert Received(events[..i]) + [] == Received(events[..i]);
  }

  /** One message that carries the stream on. */
  method Receive(events: seq<Incoming>, i: nat, quota: nat, was: bytes, s: Output) returns (pending: bytes, r: Output)
    requires i < |events| && Reading(events, i, quota, s, was) && Carrying(events[i])
    ensures if r.failed then Hopeless(events, quota) else Reading(events, i + 1, quota, r, pending)
  {
    if events[i].Wrte? {
      pending, r := AcceptPackets(was + events[i].data, s, quota);
      WrteGoesOn(events, i, quota, was, s, pending, r);
    } else {
      pending, r := was, s;
      OkayGoesOn(events, i, quota, was, s);
    }
  }

  /** Stream.read. An exit code is returned exactly for a clean stream, and then the two
      queues hold the stdout and the stderr payloads, each in order. */
  method Read(events: seq<Incoming>, quota: nat) returns (res: Result, s: Output)
    ensures res.Exited? ==> Reports(events, quota, res.code, s.out, s.errOut)
    ensures forall c, out, errOut :: Reports(events, quota, c, out, errOut) ==>
              res == Exited(c) && s.out == out && s.errOut == errOut
  {
    var pending: bytes := [];
    s := NEW_OUTPUT;
    for i := 0 to |events|
      invariant Reading(events, i, quota, s, pending)
    {
      if events[i].Clse? || events[i].EndOfFile? {
        res := Finish(events, i, quota, s, pending);
        return;
      }
      if !Carrying(events[i]) {
        NoCleanPast(events, i, quota);
        return Broken, s;
      }
      pending, s := Receive(events, i, quota, pending, s);
      if s.failed {
        return Broken, s;
      }
    }
    NoCleanPast(events, |events|, quota);
    return Broken, s;
  }

  /** A close or the end of file: success needs an exit code and no partial packet. */
  method Finish(events: seq<Incoming>, i: nat, quota: nat, s: Output, pending: bytes) returns (res: Result)
    requires Reading(events, i, quota, s, pending)
    requires i < |events| && (events[i].Clse? || events[i].EndOfFile?)
    ensures res.Exited? ==> Reports(events, quota, res.code, s.out, s.errOut)
    ensures forall c, out, errOut :: Reports(events, quota, c, out, errOut) ==>
              res == Exited(c) && s.out == out && s.errOut == errOut
  {
    res := if s.exit < 0 || |pending| != 0 then Broken else Exited(s.exit);
    FinishReports(events, i, quota, s, pending);
    forall c, out, errOut | Reports(events, quota, c, out, errOut)
      ensures res == Exited(c) && s.out == out && s.errOut == errOut {
      ReportedIsFinish(events, i, quota, s, pending, c, out, errOut);
    }
  }

  /** An exit code and no partial packet: the stream was clean. */
  lemma FinishReports(events: seq<Incoming>, i: nat, quota: nat, s: Output, pending: bytes)
    requires Reading(events, i, quota, s, pending) && i < |events| && (events[i].Clse? || events[i].EndOfFile?)
    ensures s.exit >= 0 && pending == [] ==> Reports(events, quota, s.exit, s.out, s.errOut)
  {
    var ps := Parse(Received(events[..i])).packets;
    AcceptMeaning(ps, quota);
    ParseCovers(Received(events[..i]));
    if s.exit >= 0 && pending == [] {
      assert EncodePackets(ps) + [] == EncodePackets(ps);
      assert Clean(events, i, ps, quota, s.exit);
    }
  }

  /** A clean stream that ends here is the one that was read. */
  lemma ReportedIsFinish(events: seq<Incoming>, i: nat, quota: nat, s: Output, pending: bytes,
                         c: int, out: bytes, errOut: bytes)
    requires Reading(events, i, quota, s, pending) && i < |events| && (events[i].Clse? || events[i].EndOfFile?)
    requires Reports(events, quota, c, out, errOut)
    ensures s.exit == c >= 0 && pending == [] && s.out == out && s.errOut == errOut
  {
    var n: nat, qs :|
      Clean(events, n, qs, quota, c) && out == Payloads(qs, {STDOUT}) && errOut == Payloads(qs, {STDERR});
    assert n == i;
    assert EncodePackets(qs) + [] == EncodePackets(qs);
    EncodableIfOk(qs);
    ParseIsUnique(qs, []);
    AcceptMeaning(qs, quota);
  }

  lemma EncodableIfOk(ps: seq<Packet>)
    requires WellFormed(ps)
    ensures Encodable(ps) && EncodePackets(ps) + [] == EncodePackets(ps)
  {}

  /** No exit code may be reported, whatever the output. */
  ghost predicate Hopeless(events: seq<Incoming>, quota: nat) {
    forall c, out, errOut :: !Reports(events, quota, c, out, errOut)
  }

  /** A clean stream cannot end before a carrying prefix does. */
  lemma NoCleanPast(events: seq<Incoming>, i: nat, quota: nat)
    requires i <= |events| && forall j :: 0 <= j < i ==> Carrying(events[j])
    requires i < |events| ==> !Carrying(events[i]) && !events[i].Clse? && !events[i].EndOfFile?
    ensures Hopeless(events, quota)
  {}

  lemma OversizeSurvives(rest: bytes, b: bytes)
    requires Oversize(rest)
    ensures Oversize(rest + b)
  {
    assert (rest + b)[1..5] == rest[1..5];
  }

  /** Packets refused once stay refused whatever follows, and so does an oversize header. */
  lemma BadBytes(a: bytes, b: bytes, ps: seq<Packet>, quota: nat)
    requires AcceptAll(NEW_OUTPUT, Parse(a).packets, quota).failed || Oversize(Parse(a).rest)
    requires WellFormed(ps) && Count(ps, {STDOUT, STDERR}) <= quota
    ensures EncodePackets(ps) != a + b
  {
    ParseContinues(a, b);
    if AcceptAll(NEW_OUTPUT, Parse(a).packets, quota).failed {
      BadPackets(Parse(a).packets, Parse(Parse(a).rest + b).packets, quota);
    } else {
      BadHeader(Parse(a).packets, Parse(a).rest, b);
    }
    EncodableIfOk(ps);
    if EncodePackets(ps) == a + b {
      ParseIsUnique(ps, []);
    }
  }

  lemma BadPackets(first: seq<Packet>, more: seq<Packet>, quota: nat)
    requires AcceptAll(NEW_OUTPUT, first, quota).failed
    ensures !(WellFormed(first + more) && Count(first + more, {STDOUT, STDERR}) <= quota)
  {
    AcceptAppend(NEW_OUTPUT, first, more, quota);
    RefusalIsSticky(AcceptAll(NEW_OUTPUT, first, quota), more, quota);
    AcceptMeaning(first + more, quota);
  }

  /** Behind an oversize header there is either an oversize packet or nothing whole. */
  lemma BadHeader(first: seq<Packet>, rest: bytes, b: bytes)
    requires Oversize(rest)
    ensures var r := Parse(rest + b); !WellFormed(first + r.packets) || r.rest != []
  {
    OversizeSurvives(rest, b);
    var more := Parse(rest + b).packets;
    if Complete(rest + b) {
      assert more[0] in first + more && !PacketOk(more[0]);
    }
  }

  lemma BadPrefix(events: seq<Incoming>, i: nat, quota: nat)
    requires i <= |events| && forall j :: 0 <= j < i ==> Carrying(events[j])
    requires var r := Parse(Received(events[..i]));
             AcceptAll(NEW_OUTPUT, r.packets, quota).failed || Oversize(r.rest)
    ensures Hopeless(events, quota)
  {
    forall n: nat, ps, c ensures !Clean(events, n, ps, quota, c) {
      if i <= n <= |events| {
        assert events[..n] == events[..i] + events[i..n];
        ReceivedAppend(events[..i], events[i..n]);
        if WellFormed(ps) && Count(ps, {STDOUT, STDERR}) <= quota {
          BadBytes(Received(events[..i]), Received(events[i..n]), ps, quota);
        }
      }
    }
  }
}
