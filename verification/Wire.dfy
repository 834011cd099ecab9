/** The adb message framing: six little-endian words, then the payload. */
module Wire {
  import opened Common
  import opened LittleEndian

  const HEADER: nat := 24
  const MAX_PAYLOAD: u32 := 1024 * 1024

  // The tags OKAY, CLSE and WRTE, their letters read as little-endian words.
  const OKAY: u32 := 0x59414b4f
  const CLSE: u32 := 0x45534c43
  const WRTE: u32 := 0x45545257

  datatype Message = Message(command: u32, arg0: u32, arg1: u32, data: bytes)

  datatype Outcome = Got(m: Message) | Eof | UnexpectedEof | BadMagic | TooLong | BadChecksum

  /** The sum of the payload bytes, wrapping at 32 bits as it accumulates. */
  function Checksum(data: bytes): u32 {
    if data == [] then 0 else (Checksum(data[..|data| - 1]) + data[|data| - 1]) % U32
  }

  function ByteSum(data: bytes): nat {
    if data == [] then 0 else ByteSum(data[..|data| - 1]) + data[|data| - 1]
  }

  /** Wrapping at every step is wrapping once: the sum of the bytes modulo 2^32. */
  lemma {:induction false} ChecksumIsByteSum(data: bytes)
    ensures Checksum(data) == ByteSum(data) % U32
  {
    if data != [] {
      ChecksumIsByteSum(data[..|data| - 1]);
    }
  }

  method ComputeChecksum(data: bytes) returns (sum: u32)
    ensures sum == Checksum(data) == ByteSum(data) % U32
  {
    sum := 0;
    for i := 0 to |data|
      invariant sum == Checksum(data[..i])
    {
      assert data[..i + 1][..i] == data[..i];
      sum := (sum + data[i]) % U32;
    }
    assert data[..|data|] == data;
    ChecksumIsByteSum(data);
  }

  function Complement(command: u32): u32 {
    U32 - 1 - command
  }

  function Word(s: bytes, i: nat): u32
    requires 4 * i + 4 <= |s|
  {
    Uint32(s[4 * i..4 * i + 4])
  }

  /** Words one after the other, each in four little-endian bytes. */
  function Packed(words: seq<u32>): (r: bytes)
    ensures |r| == 4 * |words|
  {
    if words == [] then [] else Packed(words[..|words| - 1]) + ToLE(words[|words| - 1], 4)
  }

  /** The length is converted to 32 bits. */
  function HeaderWords(m: Message, sum: u32): seq<u32> {
    [m.command, m.arg0, m.arg1, |m.data| % U32, sum, Complement(m.command)]
  }

  function Header(m: Message, sum: u32): (h: bytes)
    ensures |h| == HEADER
  {
    Packed(HeaderWords(m, sum))
  }

  function Encode(m: Message): bytes {
    Header(m, Checksum(m.data)) + m.data
  }

  /** message.write: the header is filled in place and goes out with the payload. */
  method Write(m: Message) returns (wire: bytes)
    ensures wire == Encode(m)
  {
    var hdr := new byte[HEADER];
    var sum := ComputeChecksum(m.data);
    FillHeader(hdr, m, sum);
    if |m.data| == 0 {
      assert Encode(m) == Header(m, sum);
      return hdr[..];
    }
    return hdr[..] + m.data;
  }

  method FillHeader(hdr: array<byte>, m: Message, sum: u32)
    requires hdr.Length == HEADER
    modifies hdr
    ensures hdr[..] == Header(m, sum)
  {
    ghost var w := HeaderWords(m, sum);
    PutWord(hdr, 0, m.command, w);
    PutWord(hdr, 1, m.arg0, w);
    PutWord(hdr, 2, m.arg1, w);
    PutWord(hdr, 3, |m.data| % U32, w);
    PutWord(hdr, 4, sum, w);
    PutWord(hdr, 5, Complement(m.command), w);
    assert hdr[..] == hdr[..24] && w == w[..6];
  }

  /** The i-th word of the header behind the words before it. */
  method PutWord(hdr: array<byte>, i: nat, v: u32, ghost words: seq<u32>)
    requires i < |words| && words[i] == v && 4 * i + 4 <= hdr.Length && hdr[..4 * i] == Packed(words[..i])
    modifies hdr
    ensures hdr[..4 * i + 4] == Packed(words[..i + 1])
  {
    PutUint32(hdr, 4 * i, v);
    PackedNext(words, i);
  }

  lemma PackedNext(words: seq<u32>, k: nat)
    requires k < |words|
    ensures Packed(words[..k + 1]) == Packed(words[..k]) + ToLE(words[k], 4)
  {
    assert words[..k + 1][..k] == words[..k];
  }

  // ---------- reading ----------

  /** readMessage: what it returns for the bytes the peer sent, and what is left of them. */
  function Decode(s: bytes, limit: u32, verify: bool): (Outcome, bytes) {
    if s == [] then (Eof, [])
    else if |s| < HEADER then (UnexpectedEof, [])
    else
      var command, length, rest := Word(s, 0), Word(s, 3), s[HEADER..];
      if Word(s, 5) != Complement(command) then (BadMagic, rest)
      else if length > limit then (TooLong, rest)
      else if length > 0 && rest == [] then (Eof, [])
      else if length > |rest| then (UnexpectedEof, [])
      else
        var data := rest[..length];
        if length > 0 && verify && Checksum(data) != Word(s, 4) then (BadChecksum, rest[length..])
        else (Got(Message(command, Word(s, 1), Word(s, 2), data)), rest[length..])
  }

  class Reader {
    var pending: bytes

    constructor (input: bytes)
      ensures pending == input
    {
      pending := input;
    }

    /** io.ReadFull: end of file with nothing read is told apart from a short read. */
    method ReadFull(n: nat) returns (data: bytes, status: Outcome)
      requires n > 0
      modifies this
      ensures |old(pending)| >= n ==> data == old(pending[..n]) && pending == old(pending[n..]) && status.Got?
      ensures |old(pending)| < n ==> pending == [] && status == if old(pending) == [] then Eof else UnexpectedEof
    {
      if |pending| >= n {
        data, pending := pending[..n], pending[n..];
        status := Got(Message(0, 0, 0, []));
      } else {
        status := if pending == [] then Eof else UnexpectedEof;
        data, pending := pending, [];
      }
    }
  }

  method ReadMessage(r: Reader, limit: u32, verify: bool) returns (res: Outcome)
    modifies r
    ensures (res, r.pending) == Decode(old(r.pending), limit, verify)
  {
    ghost var s := r.pending;
    var hdr, status := r.ReadFull(HEADER);
    if !status.Got? { return status; }
    assert forall i :: 0 <= i < 6 ==> hdr[4 * i..4 * i + 4] == s[4 * i..4 * i + 4];
    var command := Uint32(hdr[0..4]);
    var arg0 := Uint32(hdr[4..8]);
    var arg1 := Uint32(hdr[8..12]);
    var length := Uint32(hdr[12..16]);
    var want := Uint32(hdr[16..20]);
    var magic := Uint32(hdr[20..24]);
    if magic != Complement(command) { return BadMagic; }
    if length > limit { return TooLong; }
    var data: bytes := [];
    if length > 0 {
      data, status := r.ReadFull(length);
      if !status.Got? { return status; }
      if verify {
        var got := ComputeChecksum(data);
        if got != want { return BadChecksum; }
      }
    }
    return Got(Message(command, arg0, arg1, data));
  }

  // ---------- encode and decode ----------

  lemma WordAtEnd(front: bytes, w: u32, tail: bytes, i: nat)
    requires |front| == 4 * i
    ensures Word(front + ToLE(w, 4) + tail, i) == w
  {
    var s := front + ToLE(w, 4) + tail;
    assert s[4 * i..4 * i + 4] == ToLE(w, 4);
    Four(w);
  }

  lemma {:induction false} WordAt(words: seq<u32>, tail: bytes, i: nat)
    requires i < |words|
    ensures Word(Packed(words) + tail, i) == words[i]
  {
    var n := |words| - 1;
    if i == n {
      WordAtEnd(Packed(words[..n]), words[n], tail, i);
    } else {
      WordAt(words[..n], ToLE(words[n], 4) + tail, i);
      Assoc(Packed(words[..n]), ToLE(words[n], 4), tail);
    }
  }

  lemma WordsOfHeader(m: Message, sum: u32, tail: bytes)
    ensures var s := Header(m, sum) + tail;
            && Word(s, 0) == m.command && Word(s, 1) == m.arg0 && Word(s, 2) == m.arg1
            && Word(s, 3) == |m.data| % U32 && Word(s, 4) == sum && Word(s, 5) == Complement(m.command)
  {
    var w := HeaderWords(m, sum);
    WordAt(w, tail, 0); WordAt(w, tail, 1); WordAt(w, tail, 2);
    WordAt(w, tail, 3); WordAt(w, tail, 4); WordAt(w, tail, 5);
  }

  lemma Behind(h: bytes, d: bytes, tail: bytes)
    ensures h + d + tail == h + (d + tail) && (h + d + tail)[|h|..] == d + tail && (d + tail)[..|d|] == d
  {}

  /** What follows the header of a written message. */
  lemma EncodedParts(m: Message, tail: bytes)
    ensures var s := Encode(m) + tail;
            && |s| >= HEADER && s[HEADER..] == m.data + tail && (m.data + tail)[..|m.data|] == m.data
            && Word(s, 0) == m.command && Word(s, 1) == m.arg0 && Word(s, 2) == m.arg1
            && Word(s, 3) == |m.data| % U32 && Word(s, 4) == Checksum(m.data) && Word(s, 5) == Complement(m.command)
  {
    Behind(Header(m, Checksum(m.data)), m.data, tail);
    WordsOfHeader(m, Checksum(m.data), m.data + tail);
  }

  /** What is read of a written message when the checksum is not verified: a payload of 4 GiB
      or more is cut to its length modulo 2^32. */
  lemma LengthWraps(m: Message, tail: bytes, limit: u32)
    ensures var n := |m.data| % U32;
            if n > limit then Decode(Encode(m) + tail, limit, false).0 == TooLong
            else Decode(Encode(m) + tail, limit, false) == (Got(m.(data := m.data[..n])), m.data[n..] + tail)
  {
    var n := |m.data| % U32;
    EncodedParts(m, tail);
    assert (m.data + tail)[..n] == m.data[..n] && (m.data + tail)[n..] == m.data[n..] + tail;
  }

  /** A written message reads back, with or without checksum verification, exactly
      when its payload is within the reader's limit. */
  lemma RoundTrip(m: Message, tail: bytes, limit: u32, verify: bool)
    ensures Decode(Encode(m) + tail, limit, verify) == (Got(m), tail) <==> |m.data| <= limit
    ensures limit < |m.data| < U32 ==> Decode(Encode(m) + tail, limit, verify).0 == TooLong
  {
    EncodedParts(m, tail);
  }

  lemma FrontWord(s: bytes, i: nat)
    requires |s| >= HEADER && i < 6
    ensures Word(s[..HEADER], i) == Word(s, i)
  {
    assert s[..HEADER][4 * i..4 * i + 4] == s[4 * i..4 * i + 4];
  }

  lemma HeaderBack(s: bytes, m: Message)
    requires |s| >= HEADER && HeaderWords(m, Word(s, 4)) ==
             [Word(s, 0), Word(s, 1), Word(s, 2), Word(s, 3), Word(s, 4), Word(s, 5)]
    ensures Header(m, Word(s, 4)) == s[..HEADER]
  {
    forall i | 0 <= i < 6 ensures HeaderWords(m, Word(s, 4))[i] == Word(s[..HEADER], i) {
      FrontWord(s, i);
    }
    PackedBack(s[..HEADER], HeaderWords(m, Word(s, 4)));
  }

  /** Whatever was read was on the wire: the message behind a header that carries it,
      and the correct checksum whenever there was one to verify. */
  lemma DecodeIsFaithful(s: bytes, limit: u32, verify: bool, m: Message, tail: bytes)
    requires Decode(s, limit, verify) == (Got(m), tail)
    ensures |m.data| <= limit
    ensures s == Header(m, Word(s, 4)) + m.data + tail
    ensures verify && m.data != [] ==> s == Encode(m) + tail
  {
    HeaderBack(s, m);
    assert s == s[..HEADER] + m.data + tail;
  }

  lemma WordBack(h: bytes, i: nat)
    requires 4 * i + 4 <= |h|
    ensures ToLE(Word(h, i), 4) == h[4 * i..4 * i + 4]
  {
    FourBack(h[4 * i..4 * i + 4]);
  }

  /** Bytes that are read as words are those words, packed. */
  lemma {:induction false} PackedBack(h: bytes, words: seq<u32>)
    requires |h| == 4 * |words| && forall i :: 0 <= i < |words| ==> words[i] == Word(h, i)
    ensures Packed(words) == h
  {
    if words != [] {
      var n := |words| - 1;
      var front := h[..4 * n];
      forall i | 0 <= i < n ensures words[..n][i] == Word(front, i) {
        assert front[4 * i..4 * i + 4] == h[4 * i..4 * i + 4];
      }
      PackedBack(front, words[..n]);
      WordBack(h, n);
      assert h == front + h[4 * n..4 * n + 4];
    }
  }

  /** A valid header alone, of a message whose payload is within the limit. */
  predicate LoneHeader(s: bytes, limit: u32) {
    |s| == HEADER && Word(s, 5) == Complement(Word(s, 0)) && 0 < Word(s, 3) <= limit
  }

  /** End of file is reported between messages - and also, because io.ReadFull gives
      plain EOF when it read nothing, right behind the header of a payload that never came. */
  lemma EofExactly(s: bytes, limit: u32, verify: bool)
    ensures Decode(s, limit, verify).0 == Eof <==> s == [] || LoneHeader(s, limit)
  {}

  /** The first thing that is wrong is the one reported. */
  lemma ErrorsExactly(s: bytes, limit: u32, verify: bool)
    requires |s| >= HEADER
    ensures var r := Decode(s, limit, verify).0;
            var magicOk, length, rest := Word(s, 5) == U32 - 1 - Word(s, 0), Word(s, 3), |s| - 24;
            && (r == BadMagic <==> !magicOk)
            && (r == TooLong <==> magicOk && length > limit)
            && (r == UnexpectedEof <==> magicOk && length <= limit && 0 < rest < length)
            && (r == BadChecksum <==>
                  && magicOk && length <= limit && 0 < length <= rest && verify
                  && Word(s, 4) != ByteSum(s[24..24 + length]) % 0x1_0000_0000)
  {
    var length := Word(s, 3);
    if length <= |s| - 24 {
      assert s[HEADER..][..length] == s[24..24 + length];
      ChecksumIsByteSum(s[24..24 + length]);
    }
  }

  /** Such a header: one byte to come, and then the connection is closed. */
  lemma EofBehindHeader()
    ensures Decode(Packed([0, 0, 0, 1, 0, U32 - 1]), 1, false).0 == Eof
  {
    var words: seq<u32> := [0, 0, 0, 1, 0, U32 - 1];
    assert Packed(words) + [] == Packed(words);
    WordAt(words, [], 0);
    WordAt(words, [], 3);
    WordAt(words, [], 5);
    EofExactly(Packed(words), 1, false);
  }

  /** A connection's whole traffic in one direction. */
  function EncodeAll(ms: seq<Message>): bytes {
    if ms == [] then [] else Encode(ms[0]) + EncodeAll(ms[1..])
  }

  function DecodeAll(s: bytes, limit: u32, verify: bool): (seq<Message>, Outcome)
    decreases |s|
  {
    var (r, rest) := Decode(s, limit, verify);
    if r.Got? then
      var (ms, end) := DecodeAll(rest, limit, verify);
      ([r.m] + ms, end)
    else ([], r)
  }

  lemma NextMessage(m: Message, tail: bytes, limit: u32, verify: bool)
    requires |m.data| <= limit
    ensures DecodeAll(Encode(m) + tail, limit, verify) ==
            ([m] + DecodeAll(tail, limit, verify).0, DecodeAll(tail, limit, verify).1)
  {
    RoundTrip(m, tail, limit, verify);
  }

  lemma EncodeFirst(ms: seq<Message>, tail: bytes)
    requires ms != []
    ensures EncodeAll(ms) + tail == Encode(ms[0]) + (EncodeAll(ms[1..]) + tail)
  {
    Assoc(Encode(ms[0]), EncodeAll(ms[1..]), tail);
  }

  lemma {:induction false} TrafficThen(ms: seq<Message>, tail: bytes, limit: u32, verify: bool)
    requires forall m :: m in ms ==> |m.data| <= limit
    ensures DecodeAll(EncodeAll(ms) + tail, limit, verify) ==
            (ms + DecodeAll(tail, limit, verify).0, DecodeAll(tail, limit, verify).1)
  {
    var last := DecodeAll(tail, limit, verify).0;
    if ms == [] {
      assert [] + tail == tail && [] + last == last;
    } else {
      TrafficThen(ms[1..], tail, limit, verify);
      EncodeFirst(ms, tail);
      NextMessage(ms[0], EncodeAll(ms[1..]) + tail, limit, verify);
      Assoc([ms[0]], ms[1..], last);
      assert [ms[0]] + ms[1..] == ms;
    }
  }

  /** Any sequence of messages within the limit reads back as itself. */
  lemma TrafficRoundTrip(ms: seq<Message>, limit: u32, verify: bool)
    requires forall m :: m in ms ==> |m.data| <= limit
    ensures DecodeAll(EncodeAll(ms), limit, verify) == (ms, Eof)
  {
    TrafficThen(ms, [], limit, verify);
    assert EncodeAll(ms) + [] == EncodeAll(ms) && ms + [] == ms;
  }
}
