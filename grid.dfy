/**
 * The hexagonal playing field: axial coordinates, the six neighbour
 * directions, and the declarative shape builder that turns a stage's shape
 * description into a finite set of cells.
 */
module Grid {
  import opened Common

  /** An axial coordinate (q, r); the third cube coordinate is s = -q - r. */
  type Pos = (int, int)

  /** The six unit steps, in the order in which neighbours are listed. */
  const Directions: seq<Pos> := [(1, 0), (1, -1), (0, -1), (-1, 0), (-1, 1), (0, 1)]

  function Add(p: Pos, d: Pos): Pos { (p.0 + d.0, p.1 + d.1) }

  function Sub(n: Pos, p: Pos): Pos { (n.0 - p.0, n.1 - p.1) }

  function Abs(x: int): nat { if x < 0 then -x else x }

  /** Distance of (q, r) from the origin: the largest of |q|, |r| and |s|. */
  function CubeLen(q: int, r: int): (n: nat)
    ensures Abs(q) <= n && Abs(r) <= n && Abs(-q - r) <= n
    ensures n == Abs(q) || n == Abs(r) || n == Abs(-q - r)
  {
    var s := -q - r;
    Max(Abs(q), Max(Abs(r), Abs(s)))
  }

  /** Two cells are adjacent when they are one step apart in cube distance. */
  predicate Adjacent(p: Pos, n: Pos) {
    CubeLen(n.0 - p.0, n.1 - p.1) == 1
  }

  /** The position of a step in Directions, or 6 when it is not a unit step. */
  function DirectionIndex(d: Pos): (k: nat)
    ensures k <= 6
    ensures k < 6 ==> Directions[k] == d
    ensures k == 6 ==> d !in Directions
  {
    if d == (1, 0) then 0
    else if d == (1, -1) then 1
    else if d == (0, -1) then 2
    else if d == (-1, 0) then 3
    else if d == (-1, 1) then 4
    else if d == (0, 1) then 5
    else 6
  }

  /** The unit steps are exactly the offsets of cube length 1. */
  lemma UnitSteps(d: Pos)
    ensures d in Directions <==> CubeLen(d.0, d.1) == 1
  {
    if CubeLen(d.0, d.1) == 1 {
      assert -1 <= d.0 <= 1 && -1 <= d.1 <= 1 && -1 <= d.0 + d.1 <= 1;
    }
  }

  /** Each direction is cancelled by the one three places further round. */
  lemma OppositeDirections(i: nat)
    requires i < 6
    ensures Add(Directions[i], Directions[(i + 3) % 6]) == (0, 0)
    ensures Directions[(i + 3) % 6] == Sub((0, 0), Directions[i])
  {
  }

  /** The in-grid neighbours of p reached by directions i, i+1, ..., 5, in that order. */
  function NeighborsFrom(cells: set<Pos>, p: Pos, i: nat): seq<Pos>
    requires i <= 6
    decreases 6 - i
  {
    if i == 6 then []
    else
      var n := Add(p, Directions[i]);
      if n in cells then [n] + NeighborsFrom(cells, p, i + 1) else NeighborsFrom(cells, p, i + 1)
  }

  /** Cube length does not change when an offset is reversed. */
  lemma CubeLenNegated(q: int, r: int)
    ensures CubeLen(-q, -r) == CubeLen(q, r)
  {
    assert Abs(-q) == Abs(q) && Abs(-r) == Abs(r) && Abs(q + r) == Abs(-q - r);
  }

  /** A cell is adjacent to p exactly when its offset from p is one of the six directions. */
  lemma AdjacentByDirection(p: Pos, m: Pos)
    ensures Adjacent(p, m) <==> DirectionIndex(Sub(m, p)) < 6
  {
    UnitSteps(Sub(m, p));
  }

  /** NeighborsFrom(cells, p, i) holds the in-grid cells adjacent to p whose direction index is at least i. */
  lemma {:induction false} NeighborsFromMembers(cells: set<Pos>, p: Pos, i: nat)
    requires i <= 6
    ensures forall n :: n in NeighborsFrom(cells, p, i) <==>
      n in cells && Adjacent(p, n) && i <= DirectionIndex(Sub(n, p))
    decreases 6 - i
  {
    if i == 6 {
      forall m | Adjacent(p, m) ensures DirectionIndex(Sub(m, p)) < 6 {
        AdjacentByDirection(p, m);
      }
    } else {
      NeighborsFromMembers(cells, p, i + 1);
      var n := Add(p, Directions[i]);
      assert Sub(n, p) == Directions[i];
      assert DirectionIndex(Sub(n, p)) == i;
      AdjacentByDirection(p, n);
      forall m | m in cells && Adjacent(p, m) && DirectionIndex(Sub(m, p)) == i
        ensures m == n
      {
        assert Sub(m, p) == Directions[i];
      }
    }
  }

  /** Every cell of NeighborsFrom(cells, p, i) lies in direction i or later. */
  lemma {:induction false} NeighborsFromAbove(cells: set<Pos>, p: Pos, i: nat)
    requires i <= 6
    ensures forall n :: n in NeighborsFrom(cells, p, i) ==> i <= DirectionIndex(Sub(n, p))
    decreases 6 - i
  {
    if i < 6 {
      NeighborsFromAbove(cells, p, i + 1);
      var n := Add(p, Directions[i]);
      assert Sub(n, p) == Directions[i];
    }
  }

  /** Putting a cell of a lower direction in front of a list in increasing direction order keeps it in order. */
  lemma OrderedCons(p: Pos, n: Pos, tail: seq<Pos>)
    requires forall a, b :: 0 <= a < b < |tail| ==> DirectionIndex(Sub(tail[a], p)) < DirectionIndex(Sub(tail[b], p))
    requires forall m :: m in tail ==> DirectionIndex(Sub(n, p)) < DirectionIndex(Sub(m, p))
    ensures forall a, b :: 0 <= a < b < |[n] + tail| ==>
      DirectionIndex(Sub(([n] + tail)[a], p)) < DirectionIndex(Sub(([n] + tail)[b], p))
  {
    var ns := [n] + tail;
    forall a, b | 0 <= a < b < |ns|
      ensures DirectionIndex(Sub(ns[a], p)) < DirectionIndex(Sub(ns[b], p))
    {
      assert ns[b] == tail[b - 1] && tail[b - 1] in tail;
      if a > 0 {
        assert ns[a] == tail[a - 1];
      }
    }
  }

  /** NeighborsFrom(cells, p, i) has at most 6 - i cells, in strictly increasing direction order. */
  lemma {:induction false} NeighborsFromOrdered(cells: set<Pos>, p: Pos, i: nat)
    requires i <= 6
    ensures |NeighborsFrom(cells, p, i)| <= 6 - i
    ensures forall a, b :: 0 <= a < b < |NeighborsFrom(cells, p, i)| ==>
      DirectionIndex(Sub(NeighborsFrom(cells, p, i)[a], p)) < DirectionIndex(Sub(NeighborsFrom(cells, p, i)[b], p))
    decreases 6 - i
  {
    if i < 6 {
      NeighborsFromOrdered(cells, p, i + 1);
      NeighborsFromAbove(cells, p, i + 1);
      var n := Add(p, Directions[i]);
      assert Sub(n, p) == Directions[i];
      var tail := NeighborsFrom(cells, p, i + 1);
      if n in cells {
        assert NeighborsFrom(cells, p, i) == [n] + tail;
        OrderedCons(p, n, tail);
      }
    }
  }

  /**
   * The neighbours of p inside the grid: at most six distinct cells, each at
   * cube distance 1 from p, listed in the order of Directions.
   */
  function Neighbors(cells: set<Pos>, p: Pos): (ns: seq<Pos>)
    ensures |ns| <= 6
    ensures forall n {:trigger n in ns} :: n in ns <==> n in cells && Adjacent(p, n)
    ensures forall a, b :: 0 <= a < b < |ns| ==> DirectionIndex(Sub(ns[a], p)) < DirectionIndex(Sub(ns[b], p))
    ensures forall a, b :: 0 <= a < b < |ns| ==> ns[a] != ns[b]
  {
    NeighborsFromMembers(cells, p, 0);
    NeighborsFromOrdered(cells, p, 0);
    NeighborsFrom(cells, p, 0)
  }

  /** Adjacency inside a grid is symmetric. */
  lemma NeighborsSymmetric(cells: set<Pos>, p: Pos, n: Pos)
    requires p in cells
    requires n in Neighbors(cells, p)
    ensures p in Neighbors(cells, n)
  {
    assert Adjacent(p, n);
    AdjacentSymmetric(p, n);
  }

  lemma AdjacentSymmetric(p: Pos, n: Pos)
    ensures Adjacent(p, n) <==> Adjacent(n, p)
  {
    CubeLenNegated(n.0 - p.0, n.1 - p.1);
    assert (-(n.0 - p.0), -(n.1 - p.1)) == (p.0 - n.0, p.1 - n.1);
  }

  /** A hexagon of the given radius: every cell within that cube distance of the origin. */
  method MakeCells(radius: int) returns (s: set<Pos>)
    ensures forall p :: p in s <==> CubeLen(p.0, p.1) <= radius
  {
    s := {};
    var q := -radius;
    while q <= radius
      invariant radius >= 0 ==> q <= radius + 1
      invariant forall p :: p in s <==> -radius <= p.0 < q && -radius <= p.1 <= radius && -radius <= p.0 + p.1 <= radius
    {
      var r := -radius;
      while r <= radius
        invariant r <= radius + 1
        invariant forall p :: p in s <==>
          ((-radius <= p.0 < q && -radius <= p.1 <= radius) || (p.0 == q && -radius <= p.1 < r))
          && -radius <= p.0 + p.1 <= radius
      {
        if -radius <= q + r <= radius {
          s := s + {(q, r)};
        }
        r := r + 1;
      }
      q := q + 1;
    }
  }

  /** A parallelogram: the cells whose q, r and s each lie in their own closed range. */
  method ParallelogramCells(q0: int, q1: int, r0: int, r1: int, s0: int, s1: int) returns (cells: set<Pos>)
    ensures forall p :: p in cells <==> q0 <= p.0 <= q1 && r0 <= p.1 <= r1 && s0 <= -p.0 - p.1 <= s1
  {
    cells := {};
    var q := q0;
    while q <= q1
      invariant q0 <= q && (q <= q1 + 1 || q == q0)
      invariant forall p :: p in cells <==> q0 <= p.0 < q && r0 <= p.1 <= r1 && s0 <= -p.0 - p.1 <= s1
    {
      var r := r0;
      while r <= r1
        invariant r0 <= r && (r <= r1 + 1 || r == r0)
        invariant forall p :: p in cells <==>
          ((q0 <= p.0 < q && r0 <= p.1 <= r1) || (p.0 == q && r0 <= p.1 < r))
          && s0 <= -p.0 - p.1 <= s1
      {
        var s := -q - r;
        if s0 <= s <= s1 {
          cells := cells + {(q, r)};
        }
        r := r + 1;
      }
      assert r0 <= r1 ==> r == r1 + 1;
      q := q + 1;
    }
  }

  /** The shape part of a stage description; an absent key is None. */
  datatype ShapeSpec = ShapeSpec(
    cells: Option<seq<Pos>>,
    shape: Option<string>,
    radius: Option<int>,
    outer: Option<int>,
    inner: Option<int>,
    q: Option<(int, int)>,
    r: Option<(int, int)>,
    s: Option<(int, int)>,
    included: seq<Pos>,
    excluded: seq<Pos>)

  /** Why a shape description yields no grid. */
  datatype GridError = UnknownShape(name: string) | MissingKey(key: string)

  /** The playing field: the radius it was built from, when it has one, and its cells. */
  datatype HexGrid = HexGrid(radius: Option<int>, cells: set<Pos>)

  /** The shape named by a stage; a stage that names none is a hexagon. */
  function ShapeName(st: ShapeSpec): string {
    if st.shape.Some? then st.shape.value else "hex"
  }

  /** The inner radius of a ring: as given, or one less than the outer radius but never below 0. */
  function RingInner(st: ShapeSpec, outer: int): int {
    if st.inner.Some? then st.inner.value else Max(0, outer - 1)
  }

  /** The stage's include and exclude lists applied to a base set of cells. */
  predicate InFinal(st: ShapeSpec, inBase: bool, p: Pos) {
    (inBase || p in st.included) && p !in st.excluded
  }

  /**
   * Builds the grid of a stage. An explicit cell list wins over any shape;
   * otherwise the shape (a hexagon by default) gives the base cells, and an
   * unknown shape or a missing key of the chosen shape is an error. The
   * include list is then added and the exclude list removed.
   */
  method FromStage(st: ShapeSpec) returns (g: Result<HexGrid, GridError>)
    ensures st.cells.Some? ==>
      g.Ok? && g.value.radius.None? &&
      forall p :: p in g.value.cells <==> InFinal(st, p in st.cells.value, p)
    ensures st.cells.None? && ShapeName(st) == "hex" ==>
      if st.radius.None? then g == Err(MissingKey("radius"))
      else
        g.Ok? && g.value.radius == st.radius &&
        forall p :: p in g.value.cells <==> InFinal(st, CubeLen(p.0, p.1) <= st.radius.value, p)
    ensures st.cells.None? && ShapeName(st) == "ring" ==>
      if st.outer.None? then g == Err(MissingKey("outer"))
      else
        var outer := st.outer.value;
        var inner := RingInner(st, outer);
        g.Ok? && g.value.radius == Some(outer) &&
        forall p :: p in g.value.cells <==> InFinal(st, inner <= CubeLen(p.0, p.1) <= outer, p)
    ensures st.cells.None? && ShapeName(st) == "parallelogram" ==>
      if st.q.None? then g == Err(MissingKey("q"))
      else if st.r.None? then g == Err(MissingKey("r"))
      else if st.s.None? then g == Err(MissingKey("s"))
      else
        var (q0, q1) := st.q.value;
        var (r0, r1) := st.r.value;
        var (s0, s1) := st.s.value;
        g.Ok? && g.value.radius.None? &&
        forall p :: p in g.value.cells <==>
          InFinal(st, q0 <= p.0 <= q1 && r0 <= p.1 <= r1 && s0 <= -p.0 - p.1 <= s1, p)
    ensures st.cells.None? && ShapeName(st) !in {"hex", "ring", "parallelogram"} ==>
      g == Err(UnknownShape(ShapeName(st)))
  {
    var radius: Option<int>;
    var cells: set<Pos>;
    if st.cells.Some? {
      radius := None;
      cells := set p | p in st.cells.value;
    } else {
      var shape := ShapeName(st);
      if shape == "hex" {
        if st.radius.None? {
          return Err(MissingKey("radius"));
        }
        radius := st.radius;
        cells := MakeCells(st.radius.value);
      } else if shape == "ring" {
        if st.outer.None? {
          return Err(MissingKey("outer"));
        }
        var outer := st.outer.value;
        var inner := RingInner(st, outer);
        var base := MakeCells(outer);
        radius := Some(outer);
        cells := set c | c in base && inner <= CubeLen(c.0, c.1) <= outer;
      } else if shape == "parallelogram" {
        if st.q.None? {
          return Err(MissingKey("q"));
        }
        if st.r.None? {
          return Err(MissingKey("r"));
        }
        if st.s.None? {
          return Err(MissingKey("s"));
        }
        var (q0, q1) := st.q.value;
        var (r0, r1) := st.r.value;
        var (s0, s1) := st.s.value;
        radius := None;
        cells := ParallelogramCells(q0, q1, r0, r1, s0, s1);
      } else {
        return Err(UnknownShape(shape));
      }
    }
    var includeSet := set p | p in st.included;
    var excludeSet := set p | p in st.excluded;
    cells := cells + includeSet;
    cells := cells - excludeSet;
    g := Ok(HexGrid(radius, cells));
  }
}
