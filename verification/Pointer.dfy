/** Where the pointer goes: the points of a drag, with Go's division, which rounds toward
    zero, and the normalized coordinates that Windows takes and reads back. */
module Pointer {
  import opened Modular

  datatype Point = Point(x: int, y: int)

  /** Go's integer division by a positive number. */
  function Quo(a: int, b: nat): int
    requires b > 0
  {
    if a >= 0 then a / b else -((-a) / b)
  }

  /** The coordinate after n of steps on the way from one place to another. */
  function Along(from: int, dest: int, n: int, steps: nat): int
    requires steps > 0
  {
    from + Quo((dest - from) * n, steps)
  }

  function DragPoint(from: Point, dest: Point, n: int, steps: nat): Point
    requires steps > 0
  {
    Point(Along(from.x, dest.x, n, steps), Along(from.y, dest.y, n, steps))
  }

  lemma Floor(a: nat, b: nat)
    requires b > 0
    ensures (a / b) * b <= a < (a / b + 1) * b
  {
    Scaled(a / b, 1, b);
  }

  lemma FloorOrder(a: nat, c: nat, b: nat)
    requires b > 0 && a <= c
    ensures a / b <= c / b
  {
    if a / b > c / b {
      MulOrder(c / b + 1, a / b, b);
      Floor(a, b);
      Floor(c, b);
    }
  }

  lemma FloorExact(d: nat, b: nat)
    requires b > 0
    ensures (d * b) / b == d
  {
    Unique(d * b, d, 0, b);
  }

  /** How far a coordinate has come, as a length. */
  lemma AlongIs(from: int, dest: int, n: nat, steps: nat)
    requires steps > 0
    ensures Along(from, dest, n, steps) ==
            if dest >= from then from + ((dest - from) * n) / steps else from - ((from - dest) * n) / steps
  {
    if dest >= from {
      QuoOf(dest - from, n, steps);
    } else {
      QuoOf(from - dest, n, steps);
      assert dest - from == -(from - dest);
    }
  }

  lemma QuoSigned(e: int, steps: nat)
    requires e >= 0 && steps > 0
    ensures Quo(e, steps) == e / steps && Quo(-e, steps) == -(e / steps)
  {}

  lemma QuoOf(d: int, n: int, steps: nat)
    requires d >= 0 && n >= 0 && steps > 0
    ensures Quo(d * n, steps) == (d * n) / steps && Quo((-d) * n, steps) == -((d * n) / steps)
  {
    Product(d, n);
    Negated(d, n);
    QuoSigned(d * n, steps);
  }

  lemma Covered(d: nat, n: nat, steps: nat)
    requires 0 <= n <= steps && steps > 0
    ensures 0 <= (d * n) / steps <= d
    ensures n == steps ==> (d * n) / steps == d
  {
    MulOrder(n, steps, d);
    assert d * n >= 0;
    FloorOrder(d * n, d * steps, steps);
    FloorExact(d, steps);
  }

  predicate Between(a: int, x: int, b: int) {
    a <= x <= b || b <= x <= a
  }

  /** A coordinate stays between its ends, never turns back, and arrives exactly. */
  lemma CoordinateProgress(from: int, dest: int, m: nat, n: nat, steps: nat)
    requires m <= n <= steps && steps > 0
    ensures Between(from, Along(from, dest, m, steps), Along(from, dest, n, steps))
    ensures Between(Along(from, dest, m, steps), Along(from, dest, n, steps), dest)
    ensures n == steps ==> Along(from, dest, n, steps) == dest
  {
    AlongIs(from, dest, m, steps);
    AlongIs(from, dest, n, steps);
    var d := if dest >= from then dest - from else from - dest;
    Covered(d, m, steps);
    Covered(d, n, steps);
    MulOrder(m, n, d);
    assert d * m >= 0;
    FloorOrder(d * m, d * n, steps);
  }

  /** Every point of a drag lies in the box spanned by its ends, later points are no nearer
      the start in either direction, and the last one is the destination. */
  lemma DragStaysInBox(from: Point, dest: Point, m: nat, n: nat, steps: nat)
    requires m <= n <= steps && steps > 0
    ensures var p, q := DragPoint(from, dest, m, steps), DragPoint(from, dest, n, steps);
            && Between(from.x, p.x, q.x) && Between(p.x, q.x, dest.x)
            && Between(from.y, p.y, q.y) && Between(p.y, q.y, dest.y)
            && (n == steps ==> q == dest)
  {
    CoordinateProgress(from.x, dest.x, m, n, steps);
    CoordinateProgress(from.y, dest.y, m, n, steps);
  }

  /** How many moves a drag of some duration in milliseconds takes, and how long each is. */
  function Steps(millis: int): (n: nat)
    ensures n >= 1
  {
    if millis == 0 then 30 else if millis >= 20 then millis / 10 else 1
  }

  function Pause(millis: int): int {
    Quo(if millis == 0 then 300 else millis, Steps(millis))
  }

  /** The moves of a drag, when nothing interrupts it. */
  method Path(from: Point, dest: Point, millis: int) returns (points: seq<Point>)
    ensures |points| >= 1 && points[|points| - 1] == dest
    ensures forall i :: 0 <= i < |points| ==> points[i] == DragPoint(from, dest, i + 1, |points|)
    ensures |points| == Steps(millis)
  {
    var duration := if millis == 0 then 300 else millis;
    var steps := if Quo(duration, 10) > 1 then Quo(duration, 10) else 1;
    points := [];
    for n := 1 to steps + 1
      invariant |points| == n - 1
      invariant forall i :: 0 <= i < |points| ==> points[i] == DragPoint(from, dest, i + 1, steps)
    {
      var p := Point(from.x + Quo((dest.x - from.x) * n, steps), from.y + Quo((dest.y - from.y) * n, steps));
      points := points + [p];
    }
    DragStaysInBox(from, dest, 0, steps, steps);
  }

  // ---------- the virtual desktop ----------

  function Quotient(n: nat, d: nat): (q: nat)
    requires d > 0
    ensures n == d * q + n % d
  {
    n / d
  }

  /** A pixel's centre, normalized over an extent; pixel counts from the desktop's edge. */
  function Normalize(pixel: nat, extent: nat): nat
    requires extent > 0
  {
    Quotient((pixel * 2 + 1) * 65536, extent * 2)
  }

  /** The pixel that the system finds a normalized coordinate in. */
  function PixelAt(d: nat, extent: nat): nat {
    (d * extent) / 65536
  }

  /** What the division leaves over. */
  function Residue(pixel: nat, extent: nat): nat
    requires extent > 0
  {
    ((pixel * 2 + 1) * 65536) % (extent * 2)
  }

  lemma NormalizeIs(pixel: nat, extent: nat)
    requires extent > 0
    ensures 2 * (Normalize(pixel, extent) * extent) == (pixel * 2 + 1) * 65536 - Residue(pixel, extent)
    ensures Residue(pixel, extent) < 2 * extent
  {
    var n, d := (pixel * 2 + 1) * 65536, extent * 2;
    assert n == d * (n / d) + n % d;
    MulSwap(extent, 2, n / d);
    assert (extent * (n / d)) * 2 == d * (n / d);
  }

  /** Normalized coordinates of pixels on the desktop fit in sixteen bits. */
  lemma NormalizedInRange(pixel: nat, extent: nat)
    requires pixel < extent
    ensures 0 <= Normalize(pixel, extent) <= 65535
  {
    NormalizeIs(pixel, extent);
    var d := Normalize(pixel, extent);
    if d >= 65536 {
      MulOrder(65536, d, extent);
    }
  }

  /** A pixel is found again exactly when the division leaves at most 65536 over. */
  lemma PixelSurvivesExactly(pixel: nat, extent: nat)
    requires extent > 0
    ensures PixelAt(Normalize(pixel, extent), extent) == pixel <==> Residue(pixel, extent) <= 65536
  {
    NormalizeIs(pixel, extent);
    var covered := Normalize(pixel, extent) * extent;
    Floor(covered, 65536);
  }

  /** On every desktop up to 32768 pixels wide, every pixel is found again. */
  lemma PixelsSurvive(pixel: nat, extent: nat)
    requires pixel < extent <= 32768
    ensures PixelAt(Normalize(pixel, extent), extent) == pixel
  {
    NormalizeIs(pixel, extent);
    PixelSurvivesExactly(pixel, extent);
  }

  /** Beyond that width some pixels are lost: on 32771, pixel 21847 is taken for 21846. */
  lemma WidePixelLost()
    ensures PixelAt(Normalize(21847, 32771), 32771) == 21846
  {}
}
