/** SPAKE2 as BoringSSL plays it over edwards25519. The points form a cyclic group of
    order 8 L, here Z_L x Z_8; M and N are any two points, point encodings and the hash
    are parameters. */
module Spake2 {
  import opened Common
  import opened LittleEndian
  import opened Modular

  /** The order of the base point: 2^252 + 27742317777372353535851937790883648493. */
  const L: nat := 0x10000000_00000000_00000000_00000000_14def9de_a2f79cd6_5812631a_5cf5d3ed

  datatype RawPoint = RawPoint(big: nat, small: nat)

  type Point = p: RawPoint | p.big < L && p.small < 8 witness RawPoint(0, 0)

  const ZERO: Point := RawPoint(0, 0)
  const BASE: Point := RawPoint(1, 0)

  function Add(p: Point, q: Point): Point {
    RawPoint((p.big + q.big) % L, (p.small + q.small) % 8)
  }

  function Sub(p: Point, q: Point): Point {
    RawPoint((p.big + (L - q.big)) % L, (p.small + (8 - q.small)) % 8)
  }

  function Mul(k: nat, p: Point): Point {
    RawPoint((k * p.big) % L, (k * p.small) % 8)
  }

  datatype Role = Alice | Bob

  function Other(r: Role): Role {
    if r == Alice then Bob else Alice
  }

  /** The two mask points, the canonical encoding of points, the decoder, and SHA-512. */
  datatype Suite = Suite(m: Point, n: Point, encode: Point -> Field, decode: bytes -> Option<Point>,
                         hash: bytes -> Field)

  function Mask(c: Suite, r: Role): Point {
    if r == Alice then c.m else c.n
  }

  /** The password as a scalar: its digest read little-endian and reduced. */
  function Scalar(c: Suite, password: bytes): nat {
    FromLE(c.hash(password)) % L
  }

  function Message(c: Suite, role: Role, r: nat, w: nat): Point {
    Add(Mul((8 * r) % L, BASE), Mul(w, Mask(c, role)))
  }

  /** What a party computes from the peer's point. */
  function Shared(c: Suite, role: Role, r: nat, w: nat, q: Point): Point {
    Mul(r, Mul(8, Sub(q, Mul(w, Mask(c, Other(role))))))
  }

  /** Go's slices are shorter than this; the prefix is the low 64 bits of the length. */
  type Field = s: bytes | |s| < 0x1_0000_0000_0000_0000

  function Prefixed(s: Field): bytes {
    ToLE(|s|, 8) + s
  }

  function Transcript(fields: seq<Field>): bytes {
    if fields == [] then [] else Prefixed(fields[0]) + Transcript(fields[1..])
  }

  // ---------- the group ----------

  lemma SubAdd(p: Point, q: Point)
    ensures Sub(Add(p, q), q) == p
  {
    AddLeft(p.big + q.big, L - q.big, L);
    PlusMultiple(p.big, 1, L);
  }

  lemma MulMul(j: nat, k: nat, p: Point)
    ensures Mul(j, Mul(k, p)) == Mul(j * k, p)
  {
    Associates(j, k, p.big, L);
    Associates(j, k, p.small, 8);
  }

  lemma Associates(j: nat, k: nat, a: nat, m: nat)
    requires m > 0
    ensures (j * ((k * a) % m)) % m == ((j * k) * a) % m
  {
    MulRight(j, k * a, m);
    assert j * (k * a) == (j * k) * a;
  }

  lemma MulReduced(k: nat)
    ensures Mul(k % L, BASE) == Mul(k, BASE)
  {
    MulLeft(k, 1, L);
  }

  lemma SamePoint(p: Point, q: Point)
    requires p.big == q.big && p.small == q.small
    ensures p == q
  {}

  lemma MulAddBig(k: nat, p: Point, q: Point)
    ensures Mul(k, Add(p, q)).big == Add(Mul(k, p), Mul(k, q)).big
  {
    Distributes(k, p.big, q.big, L);
  }

  lemma MulAddSmall(k: nat, p: Point, q: Point)
    ensures Mul(k, Add(p, q)).small == Add(Mul(k, p), Mul(k, q)).small
  {
    Distributes(k, p.small, q.small, 8);
  }

  lemma MulAdd(k: nat, p: Point, q: Point)
    ensures Mul(k, Add(p, q)) == Add(Mul(k, p), Mul(k, q))
  {
    MulAddBig(k, p, q);
    MulAddSmall(k, p, q);
    SamePoint(Mul(k, Add(p, q)), Add(Mul(k, p), Mul(k, q)));
  }

  lemma Distributes(k: nat, a: nat, b: nat, m: nat)
    requires m > 0
    ensures (k * ((a + b) % m)) % m == ((k * a) % m + (k * b) % m) % m
  {
    MulRight(k, a + b, m);
    assert k * (a + b) == k * a + k * b;
    AddLeft(k * a, k * b, m);
    AddLeft(k * b, (k * a) % m, m);
  }

  lemma SwapMod(a: int, b: int, d: int, m: int)
    requires m > 0
    ensures ((a + b) % m + d) % m == ((a + d) % m + b) % m
  {
    Swapped(a + b, d, a + d, b, m);
  }

  lemma Swapped(x: int, d: int, y: int, b: int, m: int)
    requires m > 0 && x + d == y + b
    ensures (x % m + d) % m == (y % m + b) % m
  {
    AddLeft(x, d, m);
    AddLeft(y, b, m);
  }

  lemma AddSubSwapBig(p: Point, t: Point, q: Point)
    ensures Sub(Add(p, t), q).big == Add(Sub(p, q), t).big
  {
    SwapMod(p.big, t.big, L - q.big, L);
  }

  lemma AddSubSwap(p: Point, t: Point, q: Point)
    ensures Sub(Add(p, t), q) == Add(Sub(p, q), t)
  {
    AddSubSwapBig(p, t, q);
    SwapMod(p.small, t.small, 8 - q.small, 8);
    SamePoint(Sub(Add(p, t), q), Add(Sub(p, q), t));
  }

  // ---------- agreement ----------

  /** Unmasking the peer's message leaves 64 times the product of both scalars. */
  lemma SharedIsProduct(c: Suite, role: Role, mine: nat, theirs: nat, w: nat)
    ensures Shared(c, role, mine, w, Message(c, Other(role), theirs, w)) == Mul(mine * 8 * (8 * theirs), BASE)
  {
    var x := Mul((8 * theirs) % L, BASE);
    SubAdd(x, Mul(w, Mask(c, Other(role))));
    HonestProduct(mine, theirs);
  }

  lemma ProductSwaps(a: int, b: int)
    ensures a * 8 * (8 * b) == b * 8 * (8 * a)
  {}

  /** Both parties arrive at the same point, whatever their ephemeral scalars. */
  lemma Agreement(c: Suite, a: nat, b: nat, w: nat)
    ensures Shared(c, Alice, a, w, Message(c, Bob, b, w)) == Shared(c, Bob, b, w, Message(c, Alice, a, w))
  {
    SharedIsProduct(c, Alice, a, b, w);
    SharedIsProduct(c, Bob, b, a, w);
    ProductSwaps(a, b);
  }

  lemma AddSwaps(p: Point, q: Point)
    ensures Add(p, q) == Add(q, p)
  {}

  lemma WrongMask(x: Point, v: Point, w: Point)
    ensures Sub(Add(x, v), w) == Add(x, Sub(v, w))
  {
    AddSwaps(x, v);
    AddSubSwap(v, x, w);
    AddSwaps(Sub(v, w), x);
  }

  /** With another password's scalar a party shares the honest run's point exactly if the
      difference of both masks vanishes under its scalar and the cofactor. */
  lemma WrongPasswordExactly(c: Suite, role: Role, mine: nat, theirs: nat, w: nat, v: nat)
    ensures Shared(c, role, mine, w, Message(c, Other(role), theirs, v)) == Mul(mine * 8 * (8 * theirs), BASE) <==>
            Mul(mine, Mul(8, Sub(Mul(v, Mask(c, Other(role))), Mul(w, Mask(c, Other(role)))))) == ZERO
  {
    var x := Mul((8 * theirs) % L, BASE);
    var d := Sub(Mul(v, Mask(c, Other(role))), Mul(w, Mask(c, Other(role))));
    WrongMask(x, Mul(v, Mask(c, Other(role))), Mul(w, Mask(c, Other(role))));
    MulAdd(8, x, d);
    MulAdd(mine, Mul(8, x), Mul(8, d));
    HonestProduct(mine, theirs);
    AddNeutral(Mul(mine, Mul(8, x)), Mul(mine, Mul(8, d)));
  }

  lemma HonestProduct(mine: nat, theirs: nat)
    ensures Mul(mine, Mul(8, Mul((8 * theirs) % L, BASE))) == Mul(mine * 8 * (8 * theirs), BASE)
  {
    MulReduced(8 * theirs);
    MulMul(8, 8 * theirs, BASE);
    MulMul(mine, 8 * (8 * theirs), BASE);
    assert mine * (8 * (8 * theirs)) == mine * 8 * (8 * theirs);
  }

  lemma AddedComponent(c: Suite, role: Role, r: nat, w: nat, q: Point, t: Point)
    ensures Shared(c, role, r, w, Add(q, t)) ==
            Mul(r, Add(Mul(8, Sub(q, Mul(w, Mask(c, Other(role))))), Mul(8, t)))
  {
    var mask := Mul(w, Mask(c, Other(role)));
    AddSubSwap(q, t, mask);
    MulAdd(8, Sub(q, mask), t);
  }

  lemma MulOne(p: Point)
    ensures Mul(1, p) == p
  {}

  /** A component added to the peer's point leaves what is computed from it unchanged, for
      every ephemeral scalar, exactly when eight times that component vanishes. */
  lemma SmallOrderIsNeutral(c: Suite, role: Role, w: nat, q: Point, t: Point)
    ensures (forall r: nat :: Shared(c, role, r, w, Add(q, t)) == Shared(c, role, r, w, q)) <==> Mul(8, t) == ZERO
  {
    var x := Mul(8, Sub(q, Mul(w, Mask(c, Other(role)))));
    AddNeutral(x, Mul(8, t));
    if Mul(8, t) == ZERO {
      forall r: nat ensures Shared(c, role, r, w, Add(q, t)) == Shared(c, role, r, w, q) {
        AddedComponent(c, role, r, w, q, t);
      }
    } else {
      AddedComponent(c, role, 1, w, q, t);
      MulOne(x);
      MulOne(Add(x, Mul(8, t)));
      assert Shared(c, role, 1, w, Add(q, t)) != Shared(c, role, 1, w, q);
    }
  }

  lemma AddNeutral(p: Point, t: Point)
    ensures Add(p, t) == p <==> t == ZERO
  {}

  // ---------- the transcript ----------

  lemma PrefixedSplits(a: Field, b: Field, x: bytes, y: bytes)
    requires Prefixed(a) + x == Prefixed(b) + y
    ensures a == b && x == y
  {
    var s := Prefixed(a) + x;
    assert s[..8] == ToLE(|a|, 8) && s[..8] == ToLE(|b|, 8);
    assert Pow256(8) == 0x1_0000_0000_0000_0000 by {
      assert Pow256(2) == 0x1_0000;
      assert Pow256(4) == 0x1_0000_0000;
      assert Pow256(6) == 0x1_0000_0000_0000;
    }
    FromToLE(|a|, 8);
    FromToLE(|b|, 8);
    assert a == s[8..8 + |a|] && b == s[8..8 + |b|];
    assert x == s[8 + |a|..] && y == s[8 + |b|..];
  }

  /** Two transcripts are the same bytes only for the same fields. */
  lemma {:induction false} TranscriptInjective(a: seq<Field>, b: seq<Field>)
    requires Transcript(a) == Transcript(b)
    ensures a == b
  {
    if a != [] && b != [] {
      PrefixedSplits(a[0], b[0], Transcript(a[1..]), Transcript(b[1..]));
      TranscriptInjective(a[1..], b[1..]);
      assert a == [a[0]] + a[1..] && b == [b[0]] + b[1..];
    }
  }

  // ---------- sessions ----------

  datatype Error = NotGenerated | WrongSize | NotOnCurve

  datatype Result<T> = Ok(value: T) | Err(error: Error)

  /** One side of a run: who it is, who it expects, its ephemeral scalar and its password. */
  datatype Party = Party(role: Role, my: Field, their: Field, r: nat, password: bytes)

  function MsgOf(c: Suite, p: Party): Field {
    c.encode(Message(c, p.role, p.r, Scalar(c, p.password)))
  }

  /** The six fields, always in Alice-then-Bob order. */
  function Fields(c: Suite, p: Party, seen: Field, q: Point): seq<Field> {
    var dh := c.encode(Shared(c, p.role, p.r, Scalar(c, p.password), q));
    var sum := c.hash(p.password);
    if p.role == Alice then [p.my, p.their, MsgOf(c, p), seen, dh, sum]
    else [p.their, p.my, seen, MsgOf(c, p), dh, sum]
  }

  /** What a party hashes into its key after receiving a message. */
  function Hashed(c: Suite, p: Party, seen: bytes): Result<bytes> {
    if |seen| != 32 then Err(WrongSize)
    else if c.decode(seen).None? then Err(NotOnCurve)
    else Ok(Transcript(Fields(c, p, seen, c.decode(seen).value)))
  }

  /** The encoding of a party's message is 32 bytes, and decodes to it. */
  predicate Carries(c: Suite, p: Party) {
    |MsgOf(c, p)| == 32 && c.decode(MsgOf(c, p)) == Some(Message(c, p.role, p.r, Scalar(c, p.password)))
  }

  /** Alice and Bob hash the same bytes if and only if each is who the other expects, both
      messages arrived unaltered, and the digests of the passwords agree. */
  lemma AgreeExactly(c: Suite, a: Party, b: Party, aSeen: bytes, bSeen: bytes)
    requires Carries(c, a) && Carries(c, b) && a.role == Alice && b.role == Bob
    ensures Hashed(c, a, aSeen).Ok? && Hashed(c, b, bSeen).Ok? ==>
              (Hashed(c, a, aSeen) == Hashed(c, b, bSeen) <==>
                && a.my == b.their && a.their == b.my
                && aSeen == MsgOf(c, b) && bSeen == MsgOf(c, a)
                && c.hash(a.password) == c.hash(b.password))
  {
    if Hashed(c, a, aSeen).Ok? && Hashed(c, b, bSeen).Ok? {
      var fa := Fields(c, a, aSeen, c.decode(aSeen).value);
      var fb := Fields(c, b, bSeen, c.decode(bSeen).value);
      if Transcript(fa) == Transcript(fb) {
        TranscriptInjective(fa, fb);
        assert fa[0] == fb[0] && fa[1] == fb[1] && fa[2] == fb[2] && fa[3] == fb[3] && fa[5] == fb[5];
      }
      Agreement(c, a.r, b.r, Scalar(c, a.password));
    }
  }

  /** What a party hashes holds all six fields, Alice's before Bob's: two parties, whoever they
      are, hash the same bytes if and only if they agree on both names, both messages, the
      shared point and the password's digest. */
  lemma HashedHoldsAll(c: Suite, a: Party, b: Party, aSeen: bytes, bSeen: bytes)
    requires Hashed(c, a, aSeen).Ok? && Hashed(c, b, bSeen).Ok?
    ensures Hashed(c, a, aSeen) == Hashed(c, b, bSeen) <==>
            && AliceOf(a, a.my, a.their) == AliceOf(b, b.my, b.their)
            && AliceOf(a, a.their, a.my) == AliceOf(b, b.their, b.my)
            && AliceOf(a, MsgOf(c, a), aSeen) == AliceOf(b, MsgOf(c, b), bSeen)
            && AliceOf(a, aSeen, MsgOf(c, a)) == AliceOf(b, bSeen, MsgOf(c, b))
            && SharedWith(c, a, aSeen) == SharedWith(c, b, bSeen)
            && c.hash(a.password) == c.hash(b.password)
  {
    var fa := Fields(c, a, aSeen, c.decode(aSeen).value);
    var fb := Fields(c, b, bSeen, c.decode(bSeen).value);
    if Transcript(fa) == Transcript(fb) {
      TranscriptInjective(fa, fb);
      assert fa[0] == fb[0] && fa[1] == fb[1] && fa[2] == fb[2] && fa[3] == fb[3] && fa[4] == fb[4] && fa[5] == fb[5];
    }
  }

  /** Of what a party has itself and what it has from its peer, the one that is Alice's. */
  function AliceOf(p: Party, own: bytes, peers: bytes): bytes {
    if p.role == Alice then own else peers
  }

  /** The encoded point that a party shares with whoever sent the message. */
  function SharedWith(c: Suite, p: Party, seen: bytes): bytes
    requires c.decode(seen).Some?
  {
    c.encode(Shared(c, p.role, p.r, Scalar(c, p.password), c.decode(seen).value))
  }

  /** In an honest run neither party refuses the other's message, and they agree if and only
      if their names mirror and their passwords have the same digest. */
  lemma HonestRunAgreesExactly(c: Suite, a: Party, b: Party)
    requires Carries(c, a) && Carries(c, b) && a.role == Alice && b.role == Bob
    ensures Hashed(c, a, MsgOf(c, b)).Ok? && Hashed(c, b, MsgOf(c, a)).Ok?
    ensures Hashed(c, a, MsgOf(c, b)) == Hashed(c, b, MsgOf(c, a)) <==>
            a.my == b.their && a.their == b.my && c.hash(a.password) == c.hash(b.password)
  {
    AgreeExactly(c, a, b, MsgOf(c, b), MsgOf(c, a));
  }

  /** The transcript holds the message as it was received: another one that is accepted
      gives other bytes to hash. */
  lemma SeenIsHashed(c: Suite, p: Party, seen: bytes, other: bytes)
    requires seen != other
    ensures Hashed(c, p, seen).Ok? && Hashed(c, p, other).Ok? ==> Hashed(c, p, seen) != Hashed(c, p, other)
  {
    if Hashed(c, p, seen).Ok? && Hashed(c, p, other).Ok? {
      var f := Fields(c, p, seen, c.decode(seen).value);
      var g := Fields(c, p, other, c.decode(other).value);
      var k := if p.role == Alice then 3 else 2;
      assert f[k] == seen && g[k] == other;
      if Transcript(f) == Transcript(g) {
        TranscriptInjective(f, g);
      }
    }
  }

  /** A point of order eight. */
  const TORSION: Point := RawPoint(0, 1)

  /** So a small-order component leaves the shared point alone and changes what is hashed. */
  lemma SmallOrderChangesTranscript(c: Suite, p: Party, q: Point)
    requires c.decode(c.encode(q)) == Some(q) && c.decode(c.encode(Add(q, TORSION))) == Some(Add(q, TORSION))
    ensures var w := Scalar(c, p.password);
            Shared(c, p.role, p.r, w, Add(q, TORSION)) == Shared(c, p.role, p.r, w, q)
    ensures |c.encode(q)| == 32 && |c.encode(Add(q, TORSION))| == 32 ==>
              Hashed(c, p, c.encode(q)) != Hashed(c, p, c.encode(Add(q, TORSION)))
  {
    assert Mul(8, TORSION) == ZERO;
    SmallOrderIsNeutral(c, p.role, Scalar(c, p.password), q, TORSION);
    AddNeutral(q, TORSION);
    SeenIsHashed(c, p, c.encode(q), c.encode(Add(q, TORSION)));
  }

  /** Two parties of the same role never agree, for then each puts itself first. */
  lemma SameRoleNeverAgrees(c: Suite, a: Party, b: Party, aSeen: bytes, bSeen: bytes)
    requires a.role == b.role && a.my == b.their && a.their == b.my && a.my != a.their
    ensures Hashed(c, a, aSeen).Ok? && Hashed(c, b, bSeen).Ok? ==> Hashed(c, a, aSeen) != Hashed(c, b, bSeen)
  {
    if Hashed(c, a, aSeen).Ok? && Hashed(c, b, bSeen).Ok? {
      var fa := Fields(c, a, aSeen, c.decode(aSeen).value);
      var fb := Fields(c, b, bSeen, c.decode(bSeen).value);
      assert fa[0] != fb[0];
      if Transcript(fa) == Transcript(fb) {
        TranscriptInjective(fa, fb);
      }
    }
  }

  class Session {
    const role: Role
    const myName: Field
    const theirName: Field
    var private: nat
    var passwordScalar: nat
    var passwordHash: Field
    var myMsg: Option<Field>

    /** The party this session plays once its message is out. */
    ghost predicate Plays(c: Suite, p: Party)
      reads this
    {
      && p.role == role && p.my == myName && p.their == theirName && p.r == private
      && passwordHash == c.hash(p.password) && passwordScalar == Scalar(c, p.password)
      && myMsg == Some(MsgOf(c, p))
    }

    constructor (role: Role, myName: Field, theirName: Field)
      ensures this.role == role && this.myName == myName && this.theirName == theirName && myMsg.None?
    {
      this.role, this.myName, this.theirName := role, myName, theirName;
      private, passwordScalar, passwordHash, myMsg := 0, 0, [], None;
    }

    /** random is the uniform scalar drawn for this session. */
    method GenerateMsg(c: Suite, password: bytes, random: nat) returns (msg: Field)
      modifies this
      ensures Plays(c, Party(role, myName, theirName, random, password))
      ensures myMsg == Some(msg)
    {
      private := random;
      var p := Mul((8 * random) % L, BASE);
      passwordHash := c.hash(password);
      passwordScalar := FromLE(passwordHash) % L;
      var mask := Mul(passwordScalar, Mask(c, role));
      msg := c.encode(Add(p, mask));
      myMsg := Some(msg);
    }

    /** The key, or why there is none; it needs the own message first. */
    method ProcessMsg(c: Suite, seen: bytes, ghost p: Party) returns (key: Result<Field>)
      requires myMsg.Some? ==> Plays(c, p)
      ensures myMsg.None? ==> key == Err(NotGenerated)
      ensures myMsg.Some? ==> key == match Hashed(c, p, seen) case Ok(t) => Ok(c.hash(t)) case Err(e) => Err(e)
    {
      if myMsg.None? { return Err(NotGenerated); }
      if |seen| != 32 { return Err(WrongSize); }
      var star := c.decode(seen);
      if star.None? { return Err(NotOnCurve); }
      var ext := Sub(star.value, Mul(passwordScalar, Mask(c, Other(role))));
      var dh := Mul(private, Mul(8, ext));
      var aliceName, bobName, aliceMsg: Field, bobMsg: Field := myName, theirName, myMsg.value, seen;
      if role == Bob {
        aliceName, bobName, aliceMsg, bobMsg := theirName, myName, seen, myMsg.value;
      }
      var fields: seq<Field> := [aliceName, bobName, aliceMsg, bobMsg, c.encode(dh), passwordHash];
      assert fields == Fields(c, p, seen, star.value);
      var h: bytes := [];
      for i := 0 to 6
        invariant h + Transcript(fields[i..]) == Transcript(fields)
      {
        assert fields[i..][0] == fields[i] && fields[i..][1..] == fields[i + 1..];
        Assoc(h, Prefixed(fields[i]), Transcript(fields[i + 1..]));
        Assoc(h, ToLE(|fields[i]|, 8), fields[i]);
        h := h + ToLE(|fields[i]|, 8) + fields[i];
      }
      assert fields[6..] == [] && h + [] == h;
      return Ok(c.hash(h));
    }
  }
}
