/** Valid UTF-8 by the grammar of section 4 of RFC 3629, beside the two byte tests
    of Go's unicode/utf8 package that the workspace pager is written with, and the
    lemmas that connect the tests to the grammar. */
module Utf8 {
  import opened Common

  predicate Tail(b: byte) {
    0x80 <= b <= 0xBF
  }

  /** Length of the UTF8-char (section 4 of RFC 3629) that begins s; 0 if none does. */
  function CharLen(s: bytes): (n: nat)
    ensures n <= 4 && n <= |s|
  {
    if |s| >= 1 && s[0] <= 0x7F then 1
    else if |s| >= 2 && 0xC2 <= s[0] <= 0xDF && Tail(s[1]) then 2
    else if |s| >= 3 && Tail(s[2]) && (
              || (s[0] == 0xE0 && 0xA0 <= s[1] <= 0xBF)
              || (0xE1 <= s[0] <= 0xEC && Tail(s[1]))
              || (s[0] == 0xED && 0x80 <= s[1] <= 0x9F)
              || (0xEE <= s[0] <= 0xEF && Tail(s[1]))) then 3
    else if |s| >= 4 && Tail(s[2]) && Tail(s[3]) && (
              || (s[0] == 0xF0 && 0x90 <= s[1] <= 0xBF)
              || (0xF1 <= s[0] <= 0xF3 && Tail(s[1]))
              || (s[0] == 0xF4 && 0x80 <= s[1] <= 0x8F)) then 4
    else 0
  }

  /** The production UTF8-octets = *( UTF8-char ). */
  predicate Valid(s: bytes)
    decreases |s|
  {
    s == [] || (CharLen(s) > 0 && Valid(s[CharLen(s)..]))
  }

  // ---------- unicode/utf8 as the pager uses it ----------

  predicate RuneStart(b: byte) {
    !Tail(b)
  }

  /** The size Go's table promises for a lead byte; an impossible lead byte counts as 1. */
  function LeadSize(b: byte): (n: nat)
    ensures 1 <= n <= 4
  {
    if 0xC2 <= b <= 0xDF then 2
    else if 0xE0 <= b <= 0xEF then 3
    else if 0xF0 <= b <= 0xF4 then 4
    else 1
  }

  predicate Accept(lead: byte, second: byte) {
    (if lead == 0xE0 then 0xA0 else if lead == 0xF0 then 0x90 else 0x80) <= second
    <= (if lead == 0xED then 0x9F else if lead == 0xF4 then 0x8F else 0xBF)
  }

  predicate FullRune(p: bytes) {
    |p| > 0 && (
      || |p| >= LeadSize(p[0])
      || (|p| > 1 && !Accept(p[0], p[1]))
      || (|p| > 2 && !Tail(p[2])))
  }

  // ---------- tests against the grammar ----------

  /** A complete character, beginning with lead byte b, used to complete prefixes. */
  function Completion(p: bytes): (t: bytes)
    requires p != [] && !FullRune(p)
    ensures |p| + |t| == LeadSize(p[0])
  {
    if |p| == 1 then
      [if p[0] == 0xE0 then 0xA0 else if p[0] == 0xF0 then 0x90 else 0x80]
      + seq(LeadSize(p[0]) - 2, i => 0x80)
    else seq(LeadSize(p[0]) - |p|, i => 0x80)
  }

  /** FullRune rejects exactly the proper prefixes of characters. */
  lemma FullRuneIsExact(p: bytes)
    requires p != []
    ensures !FullRune(p) <==> exists t: bytes :: t != [] && CharLen(p + t) == |p + t|
  {
    if !FullRune(p) {
      var t := Completion(p);
      assert t != [] && CharLen(p + t) == |p + t|;
    }
    forall t: bytes | t != [] && CharLen(p + t) == |p + t| ensures !FullRune(p) {
      var w := p + t;
      assert forall i :: 0 <= i < |p| ==> w[i] == p[i];
    }
  }

  lemma CharAlone(s: bytes)
    ensures CharLen(s[..CharLen(s)]) == CharLen(s)
  {}

  /** The beginning of a character is not yet a full rune. */
  lemma ProperPrefix(s: bytes, k: nat)
    requires 0 < k < CharLen(s)
    ensures !FullRune(s[..k])
  {
    var n := CharLen(s);
    CharAlone(s);
    assert s[..k] + s[k..n] == s[..n];
    FullRuneIsExact(s[..k]);
  }

  lemma CharShape(s: bytes)
    requires CharLen(s) > 0
    ensures RuneStart(s[0]) && CharLen(s) == LeadSize(s[0])
    ensures forall i :: 0 < i < CharLen(s) ==> Tail(s[i])
  {}

  /** Inside a valid text the rune starts are exactly the character boundaries. */
  lemma {:induction false} BoundaryIsRuneStart(s: bytes, k: nat)
    requires Valid(s) && k <= |s|
    ensures Valid(s[..k]) <==> (k == |s| || RuneStart(s[k]))
    decreases |s|
  {
    if s == [] || k == 0 {
      if s != [] { CharShape(s); }
      assert s[..0] == [];
    } else {
      var n := CharLen(s);
      CharShape(s);
      if k < n {
        assert CharLen(s[..k]) == 0;
      } else {
        BoundaryIsRuneStart(s[n..], k - n);
        Slices(s, n, k);
        assert CharLen(s[..k]) == n;
      }
    }
  }

  lemma {:induction false} ValidAfterBoundary(s: bytes, k: nat)
    requires Valid(s) && k <= |s| && Valid(s[..k])
    ensures Valid(s[k..])
    decreases |s|
  {
    if k == 0 {
      assert s[0..] == s;
    } else {
      var n := CharLen(s);
      CharShape(s);
      if k < n {
        assert false;
      } else {
        assert CharLen(s[..k]) == n;
        Slices(s, n, k);
        ValidAfterBoundary(s[n..], k - n);
        assert s[n..][k - n..] == s[k..];
      }
    }
  }

  /** Text between two character boundaries is valid text. */
  lemma BetweenBoundaries(s: bytes, a: nat, b: nat)
    requires Valid(s) && a <= b <= |s|
    requires Valid(s[..a]) && (b == |s| || RuneStart(s[b]))
    ensures Valid(s[a..b]) && Valid(s[..b])
  {
    ValidAfterBoundary(s, a);
    BoundaryIsRuneStart(s[a..], b - a);
    Slices(s, a, b);
    BoundaryIsRuneStart(s, b);
  }

  /** Below a character boundary, the next one is at most four bytes up. */
  lemma {:induction false} BoundaryWithinFour(s: bytes, a: nat)
    requires Valid(s) && a < |s| && Valid(s[..a])
    ensures CharLen(s[a..]) > 0
    ensures a + CharLen(s[a..]) == |s| || RuneStart(s[a + CharLen(s[a..])])
  {
    ValidAfterBoundary(s, a);
    var t := s[a..];
    var n := CharLen(t);
    if n < |t| {
      CharShape(t[n..]);
    }
  }
}
