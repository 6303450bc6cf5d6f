/**
 The line algorithm of the frame buffer driver.
 */
module Line {
  import opened Bytes

  // Along longer lines the doubled error term may not fit 32 bits.
  const LONGEST: nat := 715827882

  datatype Point = Point(x: int, y: int)

  function Abs(a: int): nat { if a < 0 then -a else a }

  function Max(a: nat, b: nat): nat { if a < b then b else a }

  // How far the point i steps along x and j along y is off the line with slope dy / dx, scaled.
  function Off(dx: nat, dy: nat, i: nat, j: nat): int { j * dx - i * dy }

  // A point in the box of the line, at most half a step off the line along the short axis.
  predicate Close(dx: nat, dy: nat, i: nat, j: nat) {
    i <= dx && j <= dy && Abs(2 * Off(dx, dy, i, j)) <= Max(dx, dy)
  }

  // The k-th point takes k steps along the long axis.
  predicate Step(dx: nat, dy: nat, k: nat, i: nat, j: nat) { if dx >= dy then i == k else j == k }

  lemma OffStep(dx: nat, dy: nat, i: nat, j: nat)
    ensures Off(dx, dy, i + 1, j) == Off(dx, dy, i, j) - dy
    ensures Off(dx, dy, i, j + 1) == Off(dx, dy, i, j) + dx
    ensures Off(dx, dy, i + 1, j + 1) == Off(dx, dy, i, j) - dy + dx
  {
    assert (i + 1) * dy == i * dy + dy;
    assert (j + 1) * dx == j * dx + dx;
  }

  lemma OffStart(dx: nat, dy: nat)
    ensures Off(dx, dy, 0, 0) == 0 && Close(dx, dy, 0, 0)
  {
  }

  lemma CloseIn(dx: nat, dy: nat, i: nat, j: nat)
    requires Close(dx, dy, i, j)
    ensures i <= dx && j <= dy
  {
  }

  // Nothing wraps around in a turn of the loop, and its tests say which steps are taken.
  lemma Tests(dx: nat, dy: nat, i: nat, j: nat, err: int)
    requires Close(dx, dy, i, j) && err == Off(dx, dy, i, j) + dx - dy && dx <= LONGEST && dy <= LONGEST
    ensures Signed(2 * err) == 2 * err && Signed(err - dy) == err - dy
    ensures Signed(err + dx) == err + dx && Signed(err - dy + dx) == err - dy + dx
    ensures StepsX(dx, dy, Off(dx, dy, i, j)) <==> 2 * err + dy > 0
    ensures StepsY(dx, dy, Off(dx, dy, i, j)) <==> 2 * err < dx
  {
    hide Off, Signed;
    SignedFits(2 * err);
    SignedFits(err - dy);
    SignedFits(err + dx);
    SignedFits(err - dy + dx);
  }

  // A product of a nonzero number is no smaller than its other factor.
  lemma FarOff(n: int, d: nat)
    requires Abs(2 * (n * d)) <= d
    ensures n == 0 || d == 0
  {
    if n >= 1 { assert n * d >= d by { Mono(1, n, d); } }
    if n <= -1 { assert -n * d >= d by { Mono(1, -n, d); } }
  }

  lemma Mono(a: int, b: int, d: nat)
    requires a <= b
    ensures a * d <= b * d
  {
  }

  // Along the long axis a point reaches the end exactly when it does along the short one.
  lemma EndsTogether(dx: nat, dy: nat, i: nat, j: nat)
    requires Close(dx, dy, i, j)
    ensures dx >= dy && i == dx ==> j == dy
    ensures dy > dx && j == dy ==> i == dx
  {
    if dx >= dy && i == dx {
      assert Off(dx, dy, dx, j) == (j - dy) * dx;
      FarOff(j - dy, dx);
    }
    if dy > dx && j == dy {
      assert Off(dx, dy, i, dy) == (dx - i) * dy;
      FarOff(dx - i, dy);
    }
  }

  // A point just off the line's box would be too far from the line.
  lemma InBoxShort(long: nat, short: nat, i: nat, j: nat)
    requires long > 0 && i <= long && Abs(2 * (j * long - i * short)) <= long
    ensures j <= short
  {
    Mono(i, long, short);
    assert (short + 1) * long == long * short + long;
    if j > short { Mono(short + 1, j, long); }
  }

  lemma InBox(dx: nat, dy: nat, i: nat, j: nat)
    requires Abs(2 * Off(dx, dy, i, j)) <= Max(dx, dy) && (dx > 0 || dy > 0)
    ensures dx >= dy && i <= dx ==> j <= dy
    ensures dy > dx && j <= dy ==> i <= dx
  {
    if dx >= dy {
      if i <= dx { InBoxShort(dx, dy, i, j); }
    } else {
      if j <= dy { InBoxShort(dy, dx, j, i); }
    }
  }

  // The two tests of the loop.
  predicate StepsX(dx: int, dy: int, off: int) { 2 * (off + dx - dy) > -dy }
  predicate StepsY(dx: int, dy: int, off: int) { 2 * (off + dx - dy) < dx }

  /** One turn of the loop takes one step along the long axis and stays close to the line. */
  lemma Turn(dx: nat, dy: nat, i: nat, j: nat) returns (i2: nat, j2: nat)
    requires Close(dx, dy, i, j) && !(i == dx && j == dy)
    ensures i2 == i + (if StepsX(dx, dy, Off(dx, dy, i, j)) then 1 else 0)
    ensures j2 == j + (if StepsY(dx, dy, Off(dx, dy, i, j)) then 1 else 0)
    ensures Close(dx, dy, i2, j2) && (if dx >= dy then i2 == i + 1 else j2 == j + 1)
  {
    hide StepsX, StepsY, Off;
    var off := Off(dx, dy, i, j);
    i2 := i + (if StepsX(dx, dy, off) then 1 else 0);
    j2 := j + (if StepsY(dx, dy, off) then 1 else 0);
    EndsTogether(dx, dy, i, j);
    OffStep(dx, dy, i, j);
    if dx == dy { Diagonal(dx, i, j); }
    TurnOff(dx, dy, off);
    InBox(dx, dy, i2, j2);
  }

  // On a diagonal line no point is off.
  lemma Diagonal(d: nat, i: nat, j: nat)
    requires Abs(2 * Off(d, d, i, j)) <= d
    ensures Off(d, d, i, j) == 0
  {
    assert Off(d, d, i, j) == (j - i) * d;
    FarOff(j - i, d);
  }

  // How the distance from the line changes in one turn.
  lemma TurnOff(dx: nat, dy: nat, off: int)
    requires Abs(2 * off) <= Max(dx, dy) && (dx > 0 || dy > 0) && (dx == dy ==> off == 0)
    ensures var off2 := off - (if StepsX(dx, dy, off) then dy else 0) + (if StepsY(dx, dy, off) then dx else 0);
            Abs(2 * off2) <= Max(dx, dy)
    ensures if dx >= dy then StepsX(dx, dy, off) else StepsY(dx, dy, off)
  {
  }

  // The coordinate i steps from a towards b.
  function Towards(a: int, b: int, i: nat): int { if a < b then a + i else a - i }

  // The k-th point on the way: k steps along the long axis, and close to the line.
  predicate PlottedAt(from: Point, to: Point, k: nat, p: Point) {
    var dx, dy, i, j := Abs(to.x - from.x), Abs(to.y - from.y), Abs(p.x - from.x), Abs(p.y - from.y);
    && p == Point(Towards(from.x, to.x, i), Towards(from.y, to.y, j))
    && Close(dx, dy, i, j) && Step(dx, dy, k, i, j)
  }

  lemma PlotOne(from: Point, to: Point, k: nat, p: Point, i: nat, j: nat)
    requires p == Point(Towards(from.x, to.x, i), Towards(from.y, to.y, j))
    requires Close(Abs(to.x - from.x), Abs(to.y - from.y), i, j)
             && Step(Abs(to.x - from.x), Abs(to.y - from.y), k, i, j)
    ensures PlottedAt(from, to, k, p)
  {
  }

  /** vesa_draw_line, with the error term kept in 32 bits. */
  method DrawLine(ax: int, ay: int, x2: int, y2: int) returns (pts: seq<Point>)
    requires 0 <= ax < 0x8000_0000 && 0 <= ay < 0x8000_0000 && 0 <= x2 < 0x8000_0000 && 0 <= y2 < 0x8000_0000
    requires Abs(x2 - ax) <= LONGEST && Abs(y2 - ay) <= LONGEST
    ensures |pts| == Max(Abs(x2 - ax), Abs(y2 - ay)) + 1
    ensures pts[0] == Point(ax, ay) && pts[|pts| - 1] == Point(x2, y2)
    ensures forall k :: 0 <= k < |pts| ==> PlottedAt(Point(ax, ay), Point(x2, y2), k, pts[k])
  {
    hide Off, PlottedAt, Close, StepsX, StepsY, Signed;
    var x1, y1 := ax, ay;
    var dx: int, dy: int := Abs(x2 - x1), Abs(y2 - y1);
    var sx: int := if x1 < x2 then 1 else -1;
    var sy: int := if y1 < y2 then 1 else -1;
    var err: int := dx - dy;
    ghost var i, j := 0, 0;
    pts := [];
    assert Close(dx, dy, 0, 0) && Off(dx, dy, 0, 0) == 0 by { OffStart(dx, dy); }
    while true
      invariant x1 == Towards(ax, x2, i) && y1 == Towards(ay, y2, j)
      invariant Close(dx, dy, i, j) && Step(dx, dy, |pts|, i, j)
      invariant err == Off(dx, dy, i, j) + dx - dy
      invariant forall k :: 0 <= k < |pts| ==> PlottedAt(Point(ax, ay), Point(x2, y2), k, pts[k])
      invariant |pts| > 0 ==> pts[0] == Point(ax, ay)
      invariant |pts| == 0 ==> i == 0 && j == 0
      decreases Max(dx, dy) - |pts|
    {
      CloseIn(dx, dy, i, j);
      PlotOne(Point(ax, ay), Point(x2, y2), |pts|, Point(x1, y1), i, j);
      pts := pts + [Point(x1, y1)];
      if x1 == x2 && y1 == y2 { break; }
      ghost var i2, j2 := Turn(dx, dy, i, j);
      OffStep(dx, dy, i, j);
      Tests(dx, dy, i, j, err);
      var e2 := Signed(2 * err);
      if e2 > -dy {
        err := Signed(err - dy);
        x1 := x1 + sx;
      }
      if e2 < dx {
        err := Signed(err + dx);
        y1 := y1 + sy;
      }
      i, j := i2, j2;
    }
    EndsTogether(dx, dy, i, j);
  }

  lemma OffShift(dx: nat, dy: nat, i: nat, j: nat, k: nat)
    ensures Off(dx, dy, i, k) == Off(dx, dy, i, j) + (k - j) * dx
    ensures Off(dx, dy, k, j) == Off(dx, dy, i, j) - (k - i) * dy
  {
    assert (k - j) * dx == k * dx - j * dx;
    assert (k - i) * dy == k * dy - i * dy;
  }

  /** No other pixel of the same column (row, for a steep line) is closer to the line. */
  lemma Nearest(dx: nat, dy: nat, i: nat, j: nat, other: nat)
    requires Close(dx, dy, i, j)
    ensures dx >= dy ==> Abs(Off(dx, dy, i, other)) >= Abs(Off(dx, dy, i, j))
    ensures dy > dx ==> Abs(Off(dx, dy, other, j)) >= Abs(Off(dx, dy, i, j))
  {
    hide Off;
    OffShift(dx, dy, i, j, other);
    if dx >= dy { Away(other - j, dx); } else { Away(other - i, dy); }
  }

  lemma Away(n: int, d: nat)
    ensures n == 0 || Abs(n * d) >= d
  {
    if n >= 1 { Mono(1, n, d); }
    if n <= -1 { Mono(n, -1, d); }
  }
}
