/** The public key as adbd stores it: a modulus with the constants a Montgomery multiplier
    needs, in a fixed little-endian layout. The arithmetic is shown for every size. */
module AdbKey {
  import opened Common
  import opened LittleEndian
  import opened Modular

  // ---------- the inverse modulo 2^32 ----------

  function Pow2(k: nat): (r: nat)
    ensures r >= 1
  {
    if k == 0 then 1 else 2 * Pow2(k - 1)
  }

  lemma Halved(m: nat, q: nat)
    requires q % 2 == 0
    ensures m * q == (2 * m) * (q / 2)
  {
    var h := q / 2;
    assert q == 2 * h;
    assert m * (2 * h) == (2 * m) * h;
  }

  lemma OddProduct(n: nat, k: nat)
    requires n % 2 == 1 && k % 2 == 1
    ensures (n * k) % 2 == 1
  {
    MulLeft(n, k, 2);
  }

  /** Of an inverse modulo m and its neighbour m further on, one inverts modulo 2 m. */
  lemma Lift(n: nat, z: nat, m: nat, q: nat)
    requires n % 2 == 1 && n * z == m * q + 1
    ensures q % 2 == 0 ==> n * z == (2 * m) * (q / 2) + 1
    ensures q % 2 == 1 ==> n * (z + m) == (2 * m) * ((q + n) / 2) + 1
  {
    if q % 2 == 0 {
      Halved(m, q);
    } else {
      Halved(m, q + n);
      assert n * (z + m) == n * z + n * m;
      assert m * (q + n) == m * q + n * m;
    }
  }

  /** The inverse modulo 2^k and what the product exceeds 1 by, one bit at a time. */
  function InverseBits(n: nat, k: nat): (r: (nat, nat))
    requires n % 2 == 1
    ensures 1 <= r.0 <= Pow2(k) && n * r.0 == Pow2(k) * r.1 + 1
  {
    if k == 0 then (1, n - 1)
    else
      var (z, q) := InverseBits(n, k - 1);
      Lift(n, z, Pow2(k - 1), q);
      if q % 2 == 0 then (z, q / 2) else (z + Pow2(k - 1), (q + n) / 2)
  }

  lemma Pow2Is(k: nat)
    requires k == 32
    ensures Pow2(k) == U32
  {
    assert Pow2(8) == 0x100;
    assert Pow2(16) == 0x1_0000;
    assert Pow2(24) == 0x100_0000;
  }

  /** big.Int's ModInverse for an odd number and 2^32. */
  function Inverse(n: nat): (z: nat)
    requires n % 2 == 1
    ensures 1 <= z <= U32
  {
    var k := 32;
    Pow2Is(k);
    InverseBits(n, k).0
  }

  lemma InverseIs(n: nat) returns (q: nat)
    requires n % 2 == 1
    ensures n * Inverse(n) == U32 * q + 1
    ensures Inverse(n) < U32 && (n * Inverse(n)) % U32 == 1
  {
    var k := 32;
    Pow2Is(k);
    q := InverseBits(n, k).1;
    var z := Inverse(n);
    Unique(n * z, q, 1, U32);
    if z == U32 {
      PlusMultiple(0, n, U32);
    }
  }

  /** There is only one: another inverse below 2^32 is the same number. */
  lemma InverseIsUnique(n: nat, y: nat, z: nat)
    requires y < U32 && z < U32 && (n * y) % U32 == 1 && (n * z) % U32 == 1
    ensures y == z
  {
    Cancels(n, y, z, U32);
    Cancels(n, z, y, U32);
    assert (n * y) * z == (n * z) * y;
  }

  lemma Cancels(n: nat, y: nat, z: nat, m: nat)
    requires m > 1 && z < m && (n * y) % m == 1
    ensures ((n * y) * z) % m == z
  {
    MulLeft(n * y, z, m);
  }

  // ---------- Montgomery's constants ----------

  /** -1/n modulo 2^32, from the inverse of the low word. */
  function N0Inv(n: nat): (r: nat)
    requires n % 2 == 1
    ensures r < U32
  {
    U32 - Inverse(n % U32)
  }

  /** n times the constant is -1 modulo 2^32. */
  lemma N0InvIs(n: nat) returns (k: int)
    requires n % 2 == 1
    ensures 0 < N0Inv(n) < U32 && n * N0Inv(n) + 1 == U32 * k
  {
    var q := InverseIs(n % U32);
    var z := Inverse(n % U32);
    var a := LowWord(n, z, q, U32);
    k := n - a;
    Complement(n, z, a, U32);
  }

  lemma LowWord(n: nat, z: nat, q: nat, m: nat) returns (a: nat)
    requires m > 0 && (n % m) * z == m * q + 1
    ensures n * z == m * a + 1
  {
    a := n / m * z + q;
    Scaled(m * (n / m), n % m, z);
    MulAssoc(m, n / m, z);
    Scaled(n / m * z, q, m);
  }

  lemma Complement(n: nat, z: nat, a: int, m: nat)
    requires n * z == m * a + 1
    ensures n * (m - z) + 1 == m * (n - a)
  {}

  function Rr(n: nat, radix: nat): (r: nat)
    requires n > 0
    ensures r < n
  {
    (radix * radix) % n
  }

  /** The multiple of n that the constant picks for the low word of t. */
  function Digit(t: nat, n: nat): (d: nat)
    requires n % 2 == 1
    ensures d < U32
  {
    (t * N0Inv(n)) % U32
  }

  /** One word of Montgomery reduction, before the division. */
  function Padded(t: nat, n: nat): (r: nat)
    requires n % 2 == 1
  {
    PadNat(t, Digit(t, n), n);
    t + Digit(t, n) * n
  }

  lemma PadNat(t: nat, d: nat, n: nat)
    ensures t + d * n >= 0
  {}

  lemma PaddedIs(t: nat, n: nat)
    requires n % 2 == 1
    ensures Padded(t, n) == t + ((t * N0Inv(n)) % U32) * n
  {}

  /** The constant does its work: the padded number ends in a zero word. */
  lemma StepDivides(t: nat, n: nat)
    requires n % 2 == 1
    ensures Padded(t, n) % U32 == 0
  {
    var k := N0InvIs(n);
    Cancelling(t, n, N0Inv(n), k, U32);
    PaddedIs(t, n);
  }

  lemma Cancelling(t: nat, n: nat, r: nat, k: int, m: nat)
    requires m > 0 && n * r + 1 == m * k
    ensures (t + ((t * r) % m) * n) % m == 0
  {
    MulLeft(t * r, n, m);
    AddLeft(((t * r) % m) * n, t, m);
    AddLeft((t * r) * n, t, m);
    assert (t * r) * n == t * (n * r);
    assert t * (n * r) + t == t * (n * r + 1);
    assert t * (m * k) == m * (t * k);
    PlusMultiple(0, t * k, m);
  }

  /** Montgomery reduction of t by a number of words. */
  function Reduce(t: nat, n: nat, words: nat): nat
    requires n % 2 == 1
  {
    if words == 0 then t else Padded(Reduce(t, n, words - 1), n) / U32
  }

  function Radix(words: nat): (r: nat)
    ensures r >= 1
  {
    if words == 0 then 1 else U32 * Radix(words - 1)
  }

  lemma ExactDivision(x: nat, m: nat)
    requires m > 0 && x % m == 0
    ensures (x / m) * m == x
  {}

  lemma ReduceStep(x: nat, n: nat)
    requires n % 2 == 1
    ensures (Padded(x, n) / U32) * U32 == x + Digit(x, n) * n
  {
    StepDivides(x, n);
    ExactDivision(Padded(x, n), U32);
  }

  /** It adds a multiple of n smaller than n times the radix, and divides by the radix exactly. */
  lemma {:induction false} ReduceIs(t: nat, n: nat, words: nat) returns (m: nat)
    requires n % 2 == 1
    ensures m < Radix(words) && Reduce(t, n, words) * Radix(words) == t + m * n
  {
    if words == 0 {
      m := 0;
    } else {
      var before := ReduceIs(t, n, words - 1);
      m := ReduceMore(t, n, words, before);
    }
  }

  lemma ReduceMore(t: nat, n: nat, words: nat, before: nat) returns (m: nat)
    requires n % 2 == 1 && words > 0 && before < Radix(words - 1)
    requires Reduce(t, n, words - 1) * Radix(words - 1) == t + before * n
    ensures m < Radix(words) && Reduce(t, n, words) * Radix(words) == t + m * n
  {
    var x := Reduce(t, n, words - 1);
    ReduceStep(x, n);
    m := OneWord(x, Reduce(t, n, words), n, Digit(x, n), Radix(words - 1), before, t, U32, Radix(words));
  }

  lemma OneWord(x: nat, y: nat, n: nat, digit: nat, w: nat, before: nat, t: nat, m: nat, wider: nat) returns (sum: nat)
    requires y * m == x + digit * n && x * w == t + before * n && before < w && digit < m && wider == m * w
    ensures sum < wider && y * wider == t + sum * n
  {
    MulAssoc(y, m, w);
    Scaled(x, digit * n, w);
    MulSwap(digit, n, w);
    Scaled(before, digit * w, n);
    Scaled(digit, 1, w);
    MulOrder(digit + 1, m, w);
    PadNat(before, digit, w);
    sum := before + digit * w;
  }

  /** An odd modulus lets powers of two cancel. */
  lemma CancelTwo(d: nat, n: nat)
    requires n % 2 == 1 && (2 * d) % n == 0
    ensures d % n == 0
  {
    var k := (2 * d) / n;
    assert 2 * d == n * k;
    if k % 2 == 1 {
      OddProduct(n, k);
    } else {
      Halved(n, k);
      assert (2 * n) * (k / 2) == 2 * (n * (k / 2));
      Unique(d, k / 2, 0, n);
    }
  }

  lemma {:induction false} CancelBits(d: nat, n: nat, k: nat)
    requires n % 2 == 1 && (Pow2(k) * d) % n == 0
    ensures d % n == 0
  {
    if k > 0 {
      assert Pow2(k) * d == 2 * (Pow2(k - 1) * d);
      CancelTwo(Pow2(k - 1) * d, n);
      CancelBits(d, n, k - 1);
    }
  }

  lemma {:induction false} RadixIsPower(words: nat)
    ensures Radix(words) == Pow2(32 * words)
  {
    if words > 0 {
      RadixIsPower(words - 1);
      Pow2Adds(32, 32 * (words - 1));
      var k := 32;
      Pow2Is(k);
    }
  }

  lemma {:induction false} Pow2Adds(a: nat, b: nat)
    ensures Pow2(a + b) == Pow2(a) * Pow2(b)
  {
    if a > 0 {
      Pow2Adds(a - 1, b);
      assert 2 * (Pow2(a - 1) * Pow2(b)) == (2 * Pow2(a - 1)) * Pow2(b);
    }
  }

  lemma CancelPower(a: nat, b: nat, n: nat, k: nat)
    requires n % 2 == 1 && (a * Pow2(k)) % n == (b * Pow2(k)) % n && a >= b
    ensures a % n == b % n
  {
    var p := Pow2(k);
    Difference(a * p, b * p, n);
    Scaled(b, a - b, p);
    CancelBits(a - b, n, k);
    AddLeft(a - b, b, n);
  }

  lemma Difference(x: int, y: int, n: nat)
    requires n > 0 && x % n == y % n
    ensures (x - y) % n == 0
  {
    var q := x / n - y / n;
    assert x == n * (x / n) + x % n && y == n * (y / n) + y % n;
    Scaled(y / n, q, n);
    Unique(x - y, q, 0, n);
  }

  /** What rr is for: reducing x * rr multiplies x by the radix modulo n, and the result
      needs at most one subtraction of n. */
  lemma EntersMontgomeryForm(x: nat, n: nat, words: nat)
    requires n % 2 == 1 && x < n <= Radix(words)
    ensures Reduce(x * Rr(n, Radix(words)), n, words) % n == (x * Radix(words)) % n
    ensures Reduce(x * Rr(n, Radix(words)), n, words) < 2 * n
  {
    var m := ReduceIs(x * Rr(n, Radix(words)), n, words);
    Entered(x, Reduce(x * Rr(n, Radix(words)), n, words), m, n, words);
  }

  lemma Entered(x: nat, y: nat, m: nat, n: nat, words: nat)
    requires n % 2 == 1 && x < n <= Radix(words) && m < Radix(words)
    requires y * Radix(words) == x * Rr(n, Radix(words)) + m * n
    ensures y % n == (x * Radix(words)) % n && y < 2 * n
  {
    var r := Radix(words);
    Congruent(x, y, m, n, r, Rr(n, r));
    Small(x, y, m, n, r, Rr(n, r));
    Product(x, r);
    CancelRadix(y, x * r, n, words);
  }

  lemma CancelRadix(a: nat, b: nat, n: nat, words: nat)
    requires n % 2 == 1 && (a * Radix(words)) % n == (b * Radix(words)) % n
    ensures a % n == b % n
  {
    RadixIsPower(words);
    CancelEither(a, b, n, 32 * words);
  }

  lemma CancelEither(a: nat, b: nat, n: nat, k: nat)
    requires n % 2 == 1 && (a * Pow2(k)) % n == (b * Pow2(k)) % n
    ensures a % n == b % n
  {
    if a >= b { CancelPower(a, b, n, k); } else { CancelPower(b, a, n, k); }
  }

  lemma Congruent(x: nat, y: nat, m: nat, n: nat, r: nat, rr: nat)
    requires n > 0 && rr == (r * r) % n && y * r == x * rr + m * n
    ensures (y * r) % n == ((x * r) * r) % n
  {
    PlusMultiple(x * rr, m, n);
    MulRight(x, r * r, n);
    MulAssoc(x, r, r);
  }

  lemma Small(x: nat, y: nat, m: nat, n: nat, r: nat, rr: nat)
    requires x < n <= r && m < r && rr < n && y * r == x * rr + m * n
    ensures y < 2 * n
  {
    Below(x, rr, m, n, r);
    if y >= 2 * n {
      MulOrder(2 * n, y, r);
    }
  }

  lemma Below(x: nat, rr: nat, m: nat, n: nat, r: nat)
    requires x < n <= r && m < r && rr < n
    ensures x * rr + m * n < 2 * n * r
  {
    MulOrder(x, r, rr);
    MulOrder(rr, n, r);
    MulOrder(m + 1, r, n);
    Scaled(m, 1, n);
  }

  // ---------- the layout ----------

  lemma {:induction false} RadixIsPow256(words: nat)
    ensures Radix(words) == Pow256(4 * words)
  {
    if words > 0 {
      RadixIsPow256(words - 1);
      assert Pow256(4 * words) == 256 * (256 * (256 * (256 * Pow256(4 * words - 4)))) by {
        assert Pow256(4 * words - 1) == 256 * Pow256(4 * words - 2);
        assert Pow256(4 * words - 3) == 256 * Pow256(4 * words - 4);
      }
    }
  }

  /** big.Int's Bytes: big-endian, without leading zeros. */
  function BigEndian(v: nat): bytes {
    if v == 0 then [] else BigEndian(v / 256) + [v % 256]
  }

  /** A number has at most size bytes if and only if it is below 256^size. */
  lemma {:induction false} BytesNeeded(v: nat, size: nat)
    ensures |BigEndian(v)| <= size <==> v < Pow256(size)
  {
    if v > 0 && size > 0 {
      BytesNeeded(v / 256, size - 1);
    }
  }

  lemma {:induction false} ReversedBytes(v: nat, size: nat, k: nat)
    requires |BigEndian(v)| <= size && k < size
    ensures ToLE(v, size)[k] == if k < |BigEndian(v)| then BigEndian(v)[|BigEndian(v)| - 1 - k] else 0
  {
    if k == 0 {
    } else if v == 0 {
      ReversedBytes(0, size - 1, k - 1);
    } else {
      ReversedBytes(v / 256, size - 1, k - 1);
      assert BigEndian(v)[..|BigEndian(v)| - 1] == BigEndian(v / 256);
    }
  }

  /** littleEndianPadded: the number's low bytes first, then zeros. An index is out of range,
      which is a panic, exactly when the number needs more bytes than there are. */
  method LittleEndianPadded(v: nat, size: nat) returns (panics: bool, r: bytes)
    ensures panics <==> size > 0 && v >= Pow256(size)
    ensures !panics ==> r == ToLE(v, size)
  {
    var be := BigEndian(v);
    BytesNeeded(v, size);
    var out := new byte[size](_ => 0);
    var i := 0;
    while i < |be| && i < size
      invariant 0 <= i <= |be|
      invariant i > 0 ==> |be| <= size
      invariant |be| <= size ==> forall k :: 0 <= k < size ==>
                  out[k] == if |be| - i <= k < |be| then be[|be| - 1 - k] else 0
    {
      if |be| - 1 - i >= size {
        return true, [];
      }
      out[|be| - 1 - i] := be[i];
      i := i + 1;
    }
    forall k | 0 <= k < size ensures out[k] == ToLE(v, size)[k] {
      ReversedBytes(v, size, k);
    }
    assert out[..] == ToLE(v, size);
    return false, out[..];
  }

  datatype Fields = Fields(words: nat, n0inv: nat, n: nat, rr: nat, e: nat)

  /** The struct for a modulus of the given number of words; adb's is 64. */
  function Encode(n: nat, e: nat, words: nat): bytes
    requires n % 2 == 1
  {
    ToLE(words, 4) + ToLE(N0Inv(n), 4) + ToLE(n, 4 * words) + ToLE(Rr(n, Radix(words)), 4 * words) + ToLE(e % U32, 4)
  }

  function Decode(b: bytes, words: nat): Fields
    requires |b| == 12 + 8 * words
  {
    var rr := 8 + 4 * words;
    var e := 8 + 8 * words;
    Fields(FromLE(b[..4]), FromLE(b[4..8]), FromLE(b[8..rr]), FromLE(b[rr..e]), FromLE(b[e..]))
  }

  lemma FiveParts(a: bytes, b: bytes, c: bytes, d: bytes, e: bytes, m: nat)
    requires |a| == 4 && |b| == 4 && |c| == m && |d| == m && |e| == 4
    ensures var s := a + b + c + d + e;
            && |s| == 12 + 2 * m && s[..4] == a && s[4..8] == b && s[8..8 + m] == c
            && s[8 + m..8 + 2 * m] == d && s[8 + 2 * m..] == e
  {}

  lemma DecodeOf(a: bytes, b: bytes, c: bytes, d: bytes, e: bytes, words: nat)
    requires |a| == 4 && |b| == 4 && |c| == 4 * words && |d| == 4 * words && |e| == 4
    ensures |a + b + c + d + e| == 12 + 8 * words
    ensures Decode(a + b + c + d + e, words) == Fields(FromLE(a), FromLE(b), FromLE(c), FromLE(d), FromLE(e))
  {
    FiveParts(a, b, c, d, e, 4 * words);
  }

  /** Reading the struct gives back the words, both constants, the modulus and the exponent
      modulo 2^32. For 64 words it is 524 bytes long. */
  lemma LayoutRoundTrip(n: nat, e: nat, words: nat)
    requires n % 2 == 1 && n < Radix(words) && words < U32
    ensures |Encode(n, e, words)| == 12 + 8 * words
    ensures Decode(Encode(n, e, words), words) == Fields(words, N0Inv(n), n, Rr(n, Radix(words)), e % U32)
  {
    var rr := Rr(n, Radix(words));
    DecodeOf(ToLE(words, 4), ToLE(N0Inv(n), 4), ToLE(n, 4 * words), ToLE(rr, 4 * words), ToLE(e % U32, 4), words);
    FieldValues(words, N0Inv(n), n, rr, e % U32, words);
  }

  lemma FieldValues(a: u32, b: u32, n: nat, rr: nat, e: u32, words: nat)
    requires n < Radix(words) && rr < Radix(words)
    ensures FromLE(ToLE(a, 4)) == a && FromLE(ToLE(b, 4)) == b && FromLE(ToLE(e, 4)) == e
    ensures FromLE(ToLE(n, 4 * words)) == n && FromLE(ToLE(rr, 4 * words)) == rr
  {
    RadixIsPow256(words);
    Four(a);
    Four(b);
    Four(e);
    FromToLE(n, 4 * words);
    FromToLE(rr, 4 * words);
  }

  /** The modulus and rr in the struct's two wide fields; only the modulus can be too wide. */
  method WideFields(n: nat, rr: nat, words: nat) returns (panics: bool, both: bytes)
    requires rr < n && words > 0
    ensures panics <==> n >= Radix(words)
    ensures !panics ==> both == ToLE(n, 4 * words) + ToLE(rr, 4 * words)
  {
    RadixIsPow256(words);
    var field: bytes;
    panics, both := LittleEndianPadded(n, 4 * words);
    if panics { return; }
    panics, field := LittleEndianPadded(rr, 4 * words);
    both := both + field;
  }

  /** PublicKey up to the base64: no step panics for an odd modulus that fits. */
  method PublicKey(n: nat, e: nat, words: nat) returns (panics: bool, buf: bytes)
    requires n % 2 == 1 && words > 0 && words < U32
    ensures panics <==> n >= Radix(words)
    ensures !panics ==> buf == Encode(n, e, words)
  {
    var wide;
    panics, wide := WideFields(n, Rr(n, Radix(words)), words);
    if panics { return panics, []; }
    EncodeIs(n, e, words);
    buf := ToLE(words, 4) + ToLE(N0Inv(n), 4) + wide + ToLE(e % U32, 4);
  }

  /** The struct with both wide fields in one piece. */
  lemma EncodeIs(n: nat, e: nat, words: nat)
    requires n % 2 == 1
    ensures Encode(n, e, words) ==
            ToLE(words, 4) + ToLE(N0Inv(n), 4) + (ToLE(n, 4 * words) + ToLE(Rr(n, Radix(words)), 4 * words))
            + ToLE(e % U32, 4)
  {
    Assoc(ToLE(words, 4) + ToLE(N0Inv(n), 4), ToLE(n, 4 * words), ToLE(Rr(n, Radix(words)), 4 * words));
  }
}
