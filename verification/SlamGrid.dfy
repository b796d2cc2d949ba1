/** The straight line of cells a ray visits: at each step along the longer axis, the other coordinate rounded. */
module Ray {
  import opened Integers

  /** `n` steps from `from` towards `to`. */
  function Toward(from: int, to: int, n: nat): int
  {
    if from < to then from + n else from - n
  }

  /** `k * minor / major` rounded to the nearest integer, halves down. */
  function Rounded(k: nat, minor: nat, major: nat): nat
    requires major > 0
  {
    (2 * k * minor + major - 1) / (2 * major)
  }

  datatype Ends = Ends(x0: int, y0: int, x1: int, y1: int) {
    function Dx(): nat { Abs(x1 - x0) }
    function Dy(): nat { Abs(y1 - y0) }
    function Major(): nat { if Dx() >= Dy() then Dx() else Dy() }
    function Minor(): nat { if Dx() >= Dy() then Dy() else Dx() }

    /** Steps taken along the shorter axis after `k` along the longer. */
    function Aside(k: nat): nat
    {
      if Major() == 0 then 0 else Rounded(k, Minor(), Major())
    }

    function XSteps(k: nat): nat { if Dx() >= Dy() then k else Aside(k) }
    function YSteps(k: nat): nat { if Dx() >= Dy() then Aside(k) else k }

    /** The cell after `k` moves. */
    function Point(k: nat): (int, int)
    {
      (Toward(x0, x1, XSteps(k)), Toward(y0, y1, YSteps(k)))
    }

    /** The error term after `k` moves. */
    function Err(k: nat): int
    {
      Dx() - Dy() - XSteps(k) * Dy() + YSteps(k) * Dx()
    }
  }

  /** The rounding error is at most half a cell. */
  lemma {:induction false} RoundedWithinHalf(k: nat, minor: nat, major: nat)
    requires major > 0
    ensures 0 - major <= 2 * (Rounded(k, minor, major) * major - k * minor) < major
  {
    var b := Rounded(k, minor, major);
    Divides(2 * k * minor + major - 1, 2 * major);
    assert 2 * major * b == 2 * (b * major);
    assert 2 * k * minor == 2 * (k * minor);
  }

  lemma {:induction false} RoundedIs(k: nat, minor: nat, major: nat, b: nat)
    requires major > 0 && 0 - major <= 2 * (b * major - k * minor) < major
    ensures Rounded(k, minor, major) == b
  {
    assert 2 * major * b == 2 * (b * major);
    assert 2 * k * minor == 2 * (k * minor);
    DividesUniquely(2 * k * minor + major - 1, 2 * major, b);
  }

  /** One more step along the longer axis moves the other coordinate by at most one, as the error term says. */
  lemma {:induction false} RoundedNext(k: nat, minor: nat, major: nat)
    requires minor <= major && major > 0
    ensures var b := Rounded(k, minor, major);
            Rounded(k + 1, minor, major) == if 2 * (b * major - k * minor) < 2 * minor - major then b + 1 else b
  {
    var b := Rounded(k, minor, major);
    RoundedWithinHalf(k, minor, major);
    assert (b + 1) * major == b * major + major && (k + 1) * minor == k * minor + minor;
    if 2 * (b * major - k * minor) < 2 * minor - major {
      RoundedIs(k + 1, minor, major, b + 1);
    } else {
      RoundedIs(k + 1, minor, major, b);
    }
  }

  lemma {:induction false} RoundedEnds(minor: nat, major: nat)
    requires major > 0
    ensures Rounded(0, minor, major) == 0 && Rounded(major, minor, major) == minor
  {
    RoundedIs(0, minor, major, 0);
    RoundedIs(major, minor, major, minor);
  }

  lemma {:induction false} RoundedMonotone(j: nat, k: nat, minor: nat, major: nat)
    requires j <= k && minor <= major && major > 0
    ensures Rounded(j, minor, major) <= Rounded(k, minor, major)
    decreases k - j
  {
    if j < k {
      RoundedNext(j, minor, major);
      RoundedMonotone(j + 1, k, minor, major);
    }
  }

  /** Both tests of the loop body, from the error term: which coordinates move on the way to cell `k + 1`. */
  lemma {:induction false} ErrorTermDecides(e: Ends, k: nat)
    requires k < e.Major()
    ensures 2 * e.Err(k) > 0 - e.Dy() <==> e.XSteps(k + 1) == e.XSteps(k) + 1
    ensures 2 * e.Err(k) < e.Dx() <==> e.YSteps(k + 1) == e.YSteps(k) + 1
    ensures e.XSteps(k) <= e.XSteps(k + 1) <= e.XSteps(k) + 1
    ensures e.YSteps(k) <= e.YSteps(k + 1) <= e.YSteps(k) + 1
  {
    var b := e.Aside(k);
    RoundedNext(k, e.Minor(), e.Major());
    RoundedWithinHalf(k, e.Minor(), e.Major());
    if e.Dx() == e.Dy() { Diagonal(k, b, e.Dx()); }
  }

  lemma {:induction false} Diagonal(k: nat, b: nat, d: nat)
    requires d > 0 && 0 - d <= 2 * (b * d - k * d) < d
    ensures b * d == k * d
  {
    assert b * d - k * d == d * (b - k);
    Scaled(d, 1, b - k);
    Scaled(d, b - k, -1);
  }

  lemma {:induction false} ErrNext(e: Ends, k: nat)
    requires k < e.Major()
    ensures e.Err(k + 1) == e.Err(k)
              - (if e.XSteps(k + 1) == e.XSteps(k) + 1 then e.Dy() else 0)
              + (if e.YSteps(k + 1) == e.YSteps(k) + 1 then e.Dx() else 0)
  {
    ErrorTermDecides(e, k);
    assert (e.XSteps(k) + 1) * e.Dy() == e.XSteps(k) * e.Dy() + e.Dy();
    assert (e.YSteps(k) + 1) * e.Dx() == e.YSteps(k) * e.Dx() + e.Dx();
  }

  /** The ray starts and ends where it should, and is nowhere at its end before. */
  lemma {:induction false} RayEnds(e: Ends, k: nat)
    requires k <= e.Major()
    ensures e.Point(0) == (e.x0, e.y0)
    ensures e.Point(k) == (e.x1, e.y1) <==> k == e.Major()
  {
    if e.Major() > 0 { RoundedEnds(e.Minor(), e.Major()); }
  }

  /** Every visited cell lies in the bounding box of the endpoints. */
  lemma {:induction false} RayInBox(e: Ends, k: nat)
    requires k <= e.Major()
    ensures e.XSteps(k) <= e.Dx() && e.YSteps(k) <= e.Dy()
    ensures var (x, y) := e.Point(k);
            && (e.x0 <= x <= e.x1 || e.x1 <= x <= e.x0)
            && (e.y0 <= y <= e.y1 || e.y1 <= y <= e.y0)
  {
    if e.Major() > 0 {
      RoundedMonotone(k, e.Major(), e.Minor(), e.Major());
      RoundedEnds(e.Minor(), e.Major());
    }
  }

  /** Every visited cell is within half a cell of the ideal line, measured along the shorter axis. */
  lemma {:induction false} RayNearLine(e: Ends, k: nat)
    requires k <= e.Major()
    ensures var (x, y) := e.Point(k);
            2 * Abs((y - e.y0) * (e.x1 - e.x0) - (x - e.x0) * (e.y1 - e.y0)) <= e.Major()
  {
    var (x, y) := e.Point(k);
    var (a, b) := (e.XSteps(k), e.YSteps(k));
    if e.Major() > 0 { RoundedWithinHalf(k, e.Minor(), e.Major()); }
    assert x - e.x0 == a || x - e.x0 == -a;
    SignedArea(e, a, b);
    assert 2 * Abs(b * e.Dx() - a * e.Dy()) <= e.Major();
  }

  lemma {:induction false} SignedArea(e: Ends, a: nat, b: nat)
    ensures var x := Toward(e.x0, e.x1, a); var y := Toward(e.y0, e.y1, b);
            Abs((y - e.y0) * (e.x1 - e.x0) - (x - e.x0) * (e.y1 - e.y0)) == Abs(b * e.Dx() - a * e.Dy())
  {
    var u, v := e.x1 - e.x0, e.y1 - e.y0;
    var p, q := Toward(e.x0, e.x1, a) - e.x0, Toward(e.y0, e.y1, b) - e.y0;
    assert q * u == if (u > 0) == (v > 0) then b * e.Dx() else -(b * e.Dx());
    assert p * v == if (u > 0) == (v > 0) then a * e.Dy() else -(a * e.Dy());
  }

  /** Each move changes each coordinate by at most one, towards the goal, and the longer one by exactly one. */
  lemma {:induction false} RayMoves(e: Ends, k: nat)
    requires k < e.Major()
    ensures var (x, y) := e.Point(k); var (u, v) := e.Point(k + 1);
            && (u == x || u == Toward(x, e.x1, 1)) && (v == y || v == Toward(y, e.y1, 1))
            && (if e.Dx() >= e.Dy() then u != x else v != y)
  {
    ErrorTermDecides(e, k);
    RayInBox(e, k + 1);
  }

  /** No cell is visited twice. */
  lemma {:induction false} RayDistinct(e: Ends, j: nat, k: nat)
    requires j < k <= e.Major()
    ensures e.Point(j) != e.Point(k)
  {}
}

/** The occupancy grid of the SLAM server and the rays traced on it. */
module SlamGrid {
  import opened Integers
  import opened Ray

  const CELL_UNKNOWN := 0
  const CELL_FREE := 1
  const CELL_OCCUPIED := 255
  const OCCUPIED_FROM := 128

  /** Rows of cells and the counter of occupied ones. */
  datatype Grid = Grid(cells: seq<seq<int>>, count: int)

  datatype Mark = Free(x: int, y: int) | Occupy(x: int, y: int)

  ghost predicate Square(cells: seq<seq<int>>)
  {
    forall y :: 0 <= y < |cells| ==> |cells[y]| == |cells|
  }

  predicate InBounds(g: Grid, x: int, y: int)
  {
    0 <= x < |g.cells| && 0 <= y < |g.cells|
  }

  function Freed(was: int): int
  {
    if was - 20 > CELL_FREE then was - 20 else CELL_FREE
  }

  function Raised(was: int): int
  {
    if was + 40 < CELL_OCCUPIED then was + 40 else CELL_OCCUPIED
  }

  function With(cells: seq<seq<int>>, x: int, y: int, v: int): (r: seq<seq<int>>)
    requires Square(cells) && 0 <= x < |cells| && 0 <= y < |cells|
    ensures Square(r) && |r| == |cells|
  {
    cells[y := cells[y][x := v]]
  }

  function One(b: bool): nat
  {
    if b then 1 else 0
  }

  function Apply(g: Grid, m: Mark): (r: Grid)
    requires Square(g.cells)
    ensures Square(r.cells) && |r.cells| == |g.cells|
  {
    if !InBounds(g, m.x, m.y) then g
    else
      var was := g.cells[m.y][m.x];
      match m
      case Free(x, y) => Grid(With(g.cells, x, y, Freed(was)), g.count - One(was >= OCCUPIED_FROM))
      case Occupy(x, y) =>
        Grid(With(g.cells, x, y, Raised(was)), g.count + One(Raised(was) >= OCCUPIED_FROM && was < OCCUPIED_FROM))
  }

  function Play(g: Grid, ms: seq<Mark>): (r: Grid)
    requires Square(g.cells)
    ensures Square(r.cells) && |r.cells| == |g.cells|
  {
    if ms == [] then g else Apply(Play(g, ms[..|ms| - 1]), ms[|ms| - 1])
  }

  /** The cells a ray clears on its first `k` moves. */
  function Cleared(e: Ends, k: nat): (ms: seq<Mark>)
    ensures |ms| == k && forall i :: 0 <= i < k ==> ms[i] == Free(e.Point(i).0, e.Point(i).1)
  {
    if k == 0 then [] else Cleared(e, k - 1) + [Free(e.Point(k - 1).0, e.Point(k - 1).1)]
  }

  /** All marks of a ray: one per move, then the hit. */
  function RayMarks(e: Ends): seq<Mark>
  {
    Cleared(e, e.Major()) + [Occupy(e.x1, e.y1)]
  }

  class OccupancyGrid {
    var cells: seq<seq<int>>
    var occupiedCount: int

    ghost function Current(): Grid
      reads this
    {
      Grid(cells, occupiedCount)
    }

    constructor (size: nat)
      ensures Current() == Fresh(size)
    {
      cells := seq(size, _ => seq(size, _ => CELL_UNKNOWN));
      occupiedCount := 0;
    }

    method MarkFree(x: int, y: int)
      requires Square(cells)
      modifies this
      ensures Current() == Apply(old(Current()), Free(x, y))
    {
      if !(0 <= x < |cells| && 0 <= y < |cells|) { return; }
      var prev := cells[y][x];
      if prev >= OCCUPIED_FROM {
        occupiedCount := occupiedCount - 1;
      }
      cells := With(cells, x, y, if prev - 20 > CELL_FREE then prev - 20 else CELL_FREE);
      occupiedCount := occupiedCount + One(cells[y][x] >= OCCUPIED_FROM && prev < OCCUPIED_FROM);
    }

    method MarkOccupied(x: int, y: int)
      requires Square(cells)
      modifies this
      ensures Current() == Apply(old(Current()), Occupy(x, y))
    {
      if !(0 <= x < |cells| && 0 <= y < |cells|) { return; }
      var prev := cells[y][x];
      var was := prev >= OCCUPIED_FROM;
      cells := With(cells, x, y, if prev + 40 < CELL_OCCUPIED then prev + 40 else CELL_OCCUPIED);
      if cells[y][x] >= OCCUPIED_FROM && !was {
        occupiedCount := occupiedCount + 1;
      }
    }

    /** Terminates for all endpoints after exactly `max(dx, dy)` moves. */
    method ClearLine(x0: int, y0: int, x1: int, y1: int)
      requires Square(cells)
      modifies this
      ensures Current() == Play(old(Current()), RayMarks(Ends(x0, y0, x1, y1)))
    {
      ghost var e := Ends(x0, y0, x1, y1);
      ghost var before := Current();
      var dx: int, dy: int := Abs(x1 - x0), Abs(y1 - y0);
      var sx, sy := if x0 < x1 then 1 else -1, if y0 < y1 then 1 else -1;
      var err: int := dx - dy;
      var cx, cy := x0, y0;
      ghost var k := 0;
      RayEnds(e, 0);
      FirstErr(e);
      while !(cx == x1 && cy == y1)
        invariant k <= e.Major() && (cx, cy) == e.Point(k) && err == e.Err(k)
        invariant Square(cells) && Current() == Play(before, Cleared(e, k))
        decreases e.Major() - k
      {
        RayEnds(e, k);
        MarkFree(cx, cy);
        assert Cleared(e, k + 1)[..k] == Cleared(e, k);
        cx, cy, err := Move(e, k, cx, cy, err, dx, dy, sx, sy);
        k := k + 1;
      }
      RayEnds(e, k);
      assert RayMarks(e)[..k] == Cleared(e, k);
      MarkOccupied(cx, cy);
    }
  }

  lemma {:induction false} FirstErr(e: Ends)
    ensures e.Err(0) == e.Dx() - e.Dy()
  {
    if e.Major() > 0 { RoundedEnds(e.Minor(), e.Major()); }
  }

  /** The two tests at the end of the loop body. */
  method Move(ghost e: Ends, ghost k: nat, cx: int, cy: int, err: int, dx: nat, dy: nat, sx: int, sy: int)
    returns (cx': int, cy': int, err': int)
    requires k < e.Major() && (cx, cy) == e.Point(k) && err == e.Err(k)
    requires dx == e.Dx() && dy == e.Dy()
    requires sx == (if e.x0 < e.x1 then 1 else -1) && sy == if e.y0 < e.y1 then 1 else -1
    ensures (cx', cy') == e.Point(k + 1) && err' == e.Err(k + 1)
  {
    ErrorTermDecides(e, k);
    ErrNext(e, k);
    cx', cy', err' := cx, cy, err;
    var e2 := 2 * err;
    if e2 > 0 - dy {
      err' := err' - dy;
      cx' := cx' + sx;
    }
    if e2 < dx {
      err' := err' + dx;
      cy' := cy' + sy;
    }
  }

  // ── What a ray does to the map ─────────────────────────────────────────

  lemma {:induction false} ApplyElsewhere(g: Grid, m: Mark, x: int, y: int)
    requires Square(g.cells) && InBounds(g, x, y)
    ensures var r := Apply(g, m);
            r.cells[y][x] == if m.x != x || m.y != y then g.cells[y][x]
                             else if m.Free? then Freed(g.cells[y][x]) else Raised(g.cells[y][x])
  {}

  /** Whether the ray is at `(x, y)` before one of its first `k` moves. */
  predicate Visits(e: Ends, k: nat, x: int, y: int)
  {
    k > 0 && (e.Point(k - 1) == (x, y) || Visits(e, k - 1, x, y))
  }

  lemma {:induction false} VisitsIff(e: Ends, k: nat, x: int, y: int)
    ensures Visits(e, k, x, y) <==> exists i :: 0 <= i < k && e.Point(i) == (x, y)
  {
    if k > 0 {
      VisitsIff(e, k - 1, x, y);
      assert e.Point(k - 1) == (x, y) || e.Point(k - 1) != (x, y);
    }
  }

  lemma {:induction false} VisitsOnce(e: Ends, j: nat, k: nat)
    requires j <= k <= e.Major()
    ensures !Visits(e, j, e.Point(k).0, e.Point(k).1)
  {
    if j > 0 {
      VisitsOnce(e, j - 1, k);
      RayDistinct(e, j - 1, k);
    }
  }

  lemma {:induction false} ClearedCell(g: Grid, e: Ends, k: nat, x: int, y: int)
    requires Square(g.cells) && InBounds(g, x, y) && k <= e.Major()
    ensures var was := g.cells[y][x];
            Play(g, Cleared(e, k)).cells[y][x] == if Visits(e, k, x, y) then Freed(was) else was
  {
    if k > 0 {
      ClearedCell(g, e, k - 1, x, y);
      var ms := Cleared(e, k);
      assert ms[..k - 1] == Cleared(e, k - 1);
      ApplyElsewhere(Play(g, Cleared(e, k - 1)), ms[k - 1], x, y);
      VisitsOnce(e, k - 1, k - 1);
    }
  }

  /**
    Only the end of the ray is marked occupied; every other visited cell is freed once, whatever its
    value, and all other cells keep theirs.
    */
  lemma {:induction false} RayEffect(g: Grid, e: Ends, x: int, y: int)
    requires Square(g.cells) && InBounds(g, x, y)
    ensures var was := g.cells[y][x];
            Play(g, RayMarks(e)).cells[y][x] ==
            if (x, y) == (e.x1, e.y1) then (if was >= 215 then 255 else was + 40)
            else if Visits(e, e.Major(), x, y) then (if was <= 21 then 1 else was - 20)
            else was
  {
    var n := e.Major();
    ClearedCell(g, e, n, x, y);
    assert RayMarks(e)[..n] == Cleared(e, n);
    ApplyElsewhere(Play(g, Cleared(e, n)), Occupy(e.x1, e.y1), x, y);
    RayEnds(e, n);
    VisitsOnce(e, n, n);
  }

  // ── What a cell reads ──────────────────────────────────────────────────

  /** A mark changes the cell it names, if any, and no other. */
  lemma {:induction false} ApplyAt(g: Grid, m: Mark, x: int, y: int)
    requires Square(g.cells) && InBounds(g, x, y)
    ensures Apply(g, m).cells[y][x] == Evidence(g.cells[y][x], m, x, y)
  {
    ApplyElsewhere(g, m, x, y);
  }

  /** The evidence for a cell after a mark: 20 less but at least 1, or 40 more but at most 255. */
  function Evidence(v: int, m: Mark, x: int, y: int): int
  {
    if (m.x, m.y) != (x, y) then v
    else if m.Free? then (if v <= 21 then 1 else v - 20)
    else if v >= 215 then 255 else v + 40
  }

  predicate Touches(ms: seq<Mark>, x: int, y: int)
  {
    exists i :: 0 <= i < |ms| && (ms[i].x, ms[i].y) == (x, y)
  }

  lemma {:induction false} FreshCell(size: nat, x: int, y: int)
    requires InBounds(Fresh(size), x, y)
    ensures Fresh(size).cells[y][x] == 0
  {}

  /** Over every run of marks a cell reads 0 if and only if it was never marked, and stays within a byte. */
  lemma {:induction false} UnknownIff(size: nat, ms: seq<Mark>, x: int, y: int)
    requires 0 <= x < size && 0 <= y < size
    ensures var v := Play(Fresh(size), ms).cells[y][x]; 0 <= v <= 255 && (v == 0 <==> !Touches(ms, x, y))
  {
    FreshCell(size, x, y);
    if ms != [] {
      var front, last := ms[..|ms| - 1], ms[|ms| - 1];
      UnknownIff(size, front, x, y);
      ApplyAt(Play(Fresh(size), front), last, x, y);
      TouchesSnoc(ms, x, y);
    }
  }

  lemma {:induction false} TouchesSnoc(ms: seq<Mark>, x: int, y: int)
    requires ms != []
    ensures Touches(ms, x, y) <==> Touches(ms[..|ms| - 1], x, y) || (ms[|ms| - 1].x, ms[|ms| - 1].y) == (x, y)
  {
    var front := ms[..|ms| - 1];
    if Touches(front, x, y) {
      var i :| 0 <= i < |front| && (front[i].x, front[i].y) == (x, y);
      assert (ms[i].x, ms[i].y) == (x, y);
    }
    if Touches(ms, x, y) {
      var i :| 0 <= i < |ms| && (ms[i].x, ms[i].y) == (x, y);
      assert i < |front| ==> (front[i].x, front[i].y) == (x, y);
    }
  }

  function Times(m: Mark, k: nat): (ms: seq<Mark>)
    ensures |ms| == k
  {
    if k == 0 then [] else Times(m, k - 1) + [m]
  }

  /** `k` hits add 40 each, up to 255. */
  lemma {:induction false} HitsAddUp(g: Grid, x: int, y: int, k: nat)
    requires Square(g.cells) && InBounds(g, x, y) && 0 <= g.cells[y][x] <= 255
    ensures var v := g.cells[y][x] + 40 * k;
            Play(g, Times(Occupy(x, y), k)).cells[y][x] == if v < 255 then v else 255
  {
    if k > 0 {
      var ms := Times(Occupy(x, y), k);
      HitsAddUp(g, x, y, k - 1);
      assert ms[..k - 1] == Times(Occupy(x, y), k - 1);
      ApplyAt(Play(g, ms[..k - 1]), Occupy(x, y), x, y);
    }
  }

  /** `k` misses take off 20 each, down to 1, and never make a cell unknown again. */
  lemma {:induction false} MissesAddUp(g: Grid, x: int, y: int, k: nat)
    requires Square(g.cells) && InBounds(g, x, y) && 1 <= g.cells[y][x]
    ensures var v := g.cells[y][x] - 20 * k;
            Play(g, Times(Free(x, y), k)).cells[y][x] == if v > 1 then v else 1
  {
    if k > 0 {
      var ms := Times(Free(x, y), k);
      MissesAddUp(g, x, y, k - 1);
      assert ms[..k - 1] == Times(Free(x, y), k - 1);
      ApplyAt(Play(g, ms[..k - 1]), Free(x, y), x, y);
    }
  }

  /** On a fresh map a ray leaves 1 in every cell it passes, 40 in the one it ends in and 0 everywhere else. */
  lemma {:induction false} FreshRay(size: nat, e: Ends, x: int, y: int)
    requires 0 <= x < size && 0 <= y < size
    ensures Play(Fresh(size), RayMarks(e)).cells[y][x] ==
            if (x, y) == (e.x1, e.y1) then 40 else if Visits(e, e.Major(), x, y) then 1 else 0
  {
    FreshCell(size, x, y);
    RayEffect(Fresh(size), e, x, y);
  }

  // ── The counter of occupied cells ──────────────────────────────────────

  function Fresh(size: nat): (g: Grid)
    ensures Square(g.cells) && |g.cells| == size
  {
    Grid(seq(size, _ => seq(size, _ => CELL_UNKNOWN)), 0)
  }

  function OccupiedInRow(row: seq<int>): nat
  {
    if row == [] then 0 else OccupiedInRow(row[..|row| - 1]) + One(row[|row| - 1] >= OCCUPIED_FROM)
  }

  /** The real number of occupied cells. */
  function OccupiedIn(rows: seq<seq<int>>): nat
  {
    if rows == [] then 0 else OccupiedIn(rows[..|rows| - 1]) + OccupiedInRow(rows[|rows| - 1])
  }

  lemma {:induction false} RowAfter(row: seq<int>, x: nat, v: int)
    requires x < |row|
    ensures OccupiedInRow(row[x := v]) + One(row[x] >= OCCUPIED_FROM) == OccupiedInRow(row) + One(v >= OCCUPIED_FROM)
  {
    var n := |row| - 1;
    if x == n {
      assert row[x := v][..n] == row[..n];
    } else {
      RowAfter(row[..n], x, v);
      assert row[x := v][..n] == row[..n][x := v];
    }
  }

  lemma {:induction false} RowsAfter(rows: seq<seq<int>>, y: nat, row: seq<int>)
    requires y < |rows|
    ensures OccupiedIn(rows[y := row]) + OccupiedInRow(rows[y]) == OccupiedIn(rows) + OccupiedInRow(row)
  {
    var n := |rows| - 1;
    if y == n {
      assert rows[y := row][..n] == rows[..n];
    } else {
      RowsAfter(rows[..n], y, row);
      assert rows[y := row][..n] == rows[..n][y := row];
    }
  }

  /** A mark that decrements the counter though its cell stays occupied: it frees a cell at 148 or above. */
  predicate Miscounts(g: Grid, m: Mark)
    requires Square(g.cells)
  {
    m.Free? && InBounds(g, m.x, m.y) && g.cells[m.y][m.x] >= 148
  }

  /** Mark `i` of a run is one. */
  predicate MiscountsAt(g: Grid, ms: seq<Mark>, i: nat)
    requires Square(g.cells) && i < |ms|
  {
    Miscounts(Play(g, ms[..i]), ms[i])
  }

  lemma {:induction false} CountAfter(g: Grid, m: Mark)
    requires Square(g.cells)
    ensures var r := Apply(g, m);
            r.count - OccupiedIn(r.cells) == g.count - OccupiedIn(g.cells) - One(Miscounts(g, m))
  {
    if InBounds(g, m.x, m.y) {
      var r := Apply(g, m);
      var row := g.cells[m.y];
      RowAfter(row, m.x, r.cells[m.y][m.x]);
      RowsAfter(g.cells, m.y, row[m.x := r.cells[m.y][m.x]]);
    }
  }

  /** How often a run decremented the counter without a cell ceasing to be occupied. */
  function Drift(g: Grid, ms: seq<Mark>): nat
    requires Square(g.cells)
  {
    if ms == [] then 0
    else Drift(g, ms[..|ms| - 1]) + One(Miscounts(Play(g, ms[..|ms| - 1]), ms[|ms| - 1]))
  }

  lemma {:induction false} FreshIsEmpty(size: nat)
    ensures OccupiedIn(Fresh(size).cells) == 0
  {
    forall y | 0 <= y < size ensures OccupiedInRow(Fresh(size).cells[y]) == 0 {
      BlankRow(Fresh(size).cells[y]);
    }
    BlankRows(Fresh(size).cells);
  }

  lemma {:induction false} BlankRow(row: seq<int>)
    requires forall x :: 0 <= x < |row| ==> row[x] == CELL_UNKNOWN
    ensures OccupiedInRow(row) == 0
  {
    if row != [] { BlankRow(row[..|row| - 1]); }
  }

  lemma {:induction false} BlankRows(rows: seq<seq<int>>)
    requires forall y :: 0 <= y < |rows| ==> OccupiedInRow(rows[y]) == 0
    ensures OccupiedIn(rows) == 0
  {
    if rows != [] { BlankRows(rows[..|rows| - 1]); }
  }

  /**
    Over every run of marks the counter is the real number of occupied cells less the drift: it
    never exceeds the real number, and equals it exactly when no cell was freed at 148 or above.
    */
  lemma {:induction false} CounterIsRealLessDrift(size: nat, ms: seq<Mark>)
    ensures var r := Play(Fresh(size), ms);
            r.count == OccupiedIn(r.cells) - Drift(Fresh(size), ms)
  {
    if ms == [] {
      FreshIsEmpty(size);
    } else {
      var front := ms[..|ms| - 1];
      CounterIsRealLessDrift(size, front);
      CountAfter(Play(Fresh(size), front), ms[|ms| - 1]);
    }
  }

  lemma {:induction false} CounterExactIff(size: nat, ms: seq<Mark>)
    ensures var r := Play(Fresh(size), ms);
            r.count == OccupiedIn(r.cells) <==>
            forall i :: 0 <= i < |ms| ==> !MiscountsAt(Fresh(size), ms, i)
  {
    CounterIsRealLessDrift(size, ms);
    DriftZeroIff(Fresh(size), ms);
  }

  /** Four hits and one miss on a single cell: it still reads 140, yet the counter says none is occupied. */
  lemma {:induction false} CounterDrifts()
    ensures var r := Play(Fresh(1), [Occupy(0, 0), Occupy(0, 0), Occupy(0, 0), Occupy(0, 0), Free(0, 0)]);
            r.count == 0 && OccupiedIn(r.cells) == 1
  {
    var o, f, g := Occupy(0, 0), Free(0, 0), Fresh(1);
    assert g.cells[0] == [0];
    assert [o][..0] == [] && [o, o][..1] == [o] && [o, o, o][..2] == [o, o] && [o, o, o, o][..3] == [o, o, o]
        && [o, o, o, o, f][..4] == [o, o, o, o];
    OnlyCell(0, 0, o);
    assert Play(g, [o]) == Grid([[40]], 0);
    OnlyCell(40, 0, o);
    assert Play(g, [o, o]) == Grid([[80]], 0);
    OnlyCell(80, 0, o);
    assert Play(g, [o, o, o]) == Grid([[120]], 0);
    OnlyCell(120, 0, o);
    assert Play(g, [o, o, o, o]) == Grid([[160]], 1);
    OnlyCell(160, 1, f);
    assert OccupiedInRow([140]) == 1 && OccupiedIn([[140]]) == 1;
  }

  lemma {:induction false} OnlyCell(v: int, count: int, m: Mark)
    requires m.x == m.y == 0
    ensures var r := Apply(Grid([[v]], count), m);
            r.cells == [[if m.Free? then Freed(v) else Raised(v)]]
  {
    var r := Apply(Grid([[v]], count), m);
    assert r.cells[0] == [r.cells[0][0]];
  }

  lemma {:induction false} DriftZeroIff(g: Grid, ms: seq<Mark>)
    requires Square(g.cells)
    ensures Drift(g, ms) == 0 <==> forall i :: 0 <= i < |ms| ==> !MiscountsAt(g, ms, i)
  {
    if ms != [] {
      var n := |ms| - 1;
      DriftZeroIff(g, ms[..n]);
      forall i | 0 <= i < n ensures MiscountsAt(g, ms[..n], i) == MiscountsAt(g, ms, i) { SameInFront(g, ms, i); }
      assert Drift(g, ms) == Drift(g, ms[..n]) + One(MiscountsAt(g, ms, n));
      assert (forall i :: 0 <= i < |ms| ==> !MiscountsAt(g, ms, i)) <==>
             (forall i :: 0 <= i < n ==> !MiscountsAt(g, ms[..n], i)) && !MiscountsAt(g, ms, n);
    }
  }

  lemma {:induction false} SameInFront(g: Grid, ms: seq<Mark>, i: nat)
    requires Square(g.cells) && i < |ms| - 1
    ensures MiscountsAt(g, ms[..|ms| - 1], i) == MiscountsAt(g, ms, i)
  {
    assert ms[..|ms| - 1][..i] == ms[..i];
  }
}
