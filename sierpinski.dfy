/**
 * The Sierpinski generator: a triangle is split into three corner triangles
 * through the midpoints of its sides, `depth` times, and the vertices of the
 * triangles at depth zero are marked when they lie inside the grid.
 */
module Sierpinski {
  import opened Arith
  import opened Raster

  /** The vertices `(x1, y1)`, `(x2, y2)`, `(x3, y3)` of `draw_triangle`. */
  datatype Triangle = Triangle(v1: Point, v2: Point, v3: Point)

  /** The midpoint of a side, exact in real arithmetic. */
  function Mid(p: Point, q: Point): Point
  {
    Point((p.x + q.x) / 2.0, (p.y + q.y) / 2.0)
  }

  /**
   * The three triangles of lines 15-21: each keeps one vertex and takes the two
   * midpoints of the sides that meet there.
   */
  function Children(t: Triangle): (Triangle, Triangle, Triangle)
  {
    var m1 := Mid(t.v1, t.v2);
    var m2 := Mid(t.v2, t.v3);
    var m3 := Mid(t.v3, t.v1);
    (Triangle(t.v1, m1, m3), Triangle(m1, t.v2, m2), Triangle(m3, m2, t.v3))
  }

  /** The depth-zero triangles the recursion visits, in call order. */
  function Leaves(t: Triangle, depth: nat): (r: seq<Triangle>)
    ensures |r| == Pow(3, depth)
    decreases depth
  {
    if depth == 0 then [t]
    else
      var c := Children(t);
      Leaves(c.0, depth - 1) + Leaves(c.1, depth - 1) + Leaves(c.2, depth - 1)
  }

  /** The cells the first `k` points of `vs` set: the pixel of every point that passes the guard. */
  function PointMarks(vs: seq<Point>, k: nat, width: int, height: int): set<(int, int)>
    requires k <= |vs|
  {
    if k == 0 then {}
    else PointMarks(vs, k - 1, width, height) + if InBounds(vs[k - 1], width, height) then {PixelOf(vs[k - 1])} else {}
  }

  /** The cells a depth-zero call sets: those of its three vertices. */
  function VertexMarks(t: Triangle, width: int, height: int): set<(int, int)>
  {
    PointMarks([t.v1, t.v2, t.v3], 3, width, height)
  }

  lemma {:induction false} PointMarksBounded(vs: seq<Point>, k: nat, width: int, height: int)
    requires k <= |vs|
    ensures |PointMarks(vs, k, width, height)| <= k
    ensures forall c :: c in PointMarks(vs, k, width, height) ==> 0 <= c.0 < height && 0 <= c.1 < width
  {
    if k > 0 {
      PointMarksBounded(vs, k - 1, width, height);
      if InBounds(vs[k - 1], width, height) {
        InBoundsPixel(vs[k - 1], width, height);
      }
    }
  }

  /** At depth zero at most the three vertices are set, and only inside the grid. */
  lemma VertexMarksBounded(t: Triangle, width: int, height: int)
    ensures |VertexMarks(t, width, height)| <= 3
    ensures forall c :: c in VertexMarks(t, width, height) ==> 0 <= c.0 < height && 0 <= c.1 < width
  {
    PointMarksBounded([t.v1, t.v2, t.v3], 3, width, height);
  }

  /** The cells a call at `depth` sets: those of its three sub-calls, or of its vertices at depth zero. */
  function TriangleMarks(t: Triangle, depth: nat, width: int, height: int): set<(int, int)>
    decreases depth
  {
    if depth == 0 then VertexMarks(t, width, height)
    else
      var c := Children(t);
      TriangleMarks(c.0, depth - 1, width, height)
      + TriangleMarks(c.1, depth - 1, width, height)
      + TriangleMarks(c.2, depth - 1, width, height)
  }

  /** The cells the vertices of every triangle in `ts` set. */
  function UnionMarks(ts: seq<Triangle>, width: int, height: int): set<(int, int)>
  {
    if ts == [] then {} else VertexMarks(ts[0], width, height) + UnionMarks(ts[1..], width, height)
  }

  lemma {:induction false} UnionMarksConcat(a: seq<Triangle>, b: seq<Triangle>, width: int, height: int)
    ensures UnionMarks(a + b, width, height) == UnionMarks(a, width, height) + UnionMarks(b, width, height)
  {
    if a == [] {
      assert a + b == b;
    } else {
      assert (a + b)[0] == a[0] && (a + b)[1..] == a[1..] + b;
      UnionMarksConcat(a[1..], b, width, height);
    }
  }

  lemma UnionOfThree(a: seq<Triangle>, b: seq<Triangle>, c: seq<Triangle>, width: int, height: int)
    ensures UnionMarks(a + b + c, width, height) == UnionMarks(a, width, height) + UnionMarks(b, width, height) + UnionMarks(c, width, height)
  {
    UnionMarksConcat(a, b, width, height);
    UnionMarksConcat(a + b, c, width, height);
  }

  /** The set cells are exactly the vertex cells of the depth-zero triangles. */
  lemma {:induction false} TriangleMarksLeaves(t: Triangle, depth: nat, width: int, height: int)
    decreases depth
    ensures forall cell :: cell in TriangleMarks(t, depth, width, height) <==> cell in UnionMarks(Leaves(t, depth), width, height)
  {
    if depth == 0 {
      assert Leaves(t, 0)[1..] == [];
    } else {
      var c := Children(t);
      var l0, l1, l2 := Leaves(c.0, depth - 1), Leaves(c.1, depth - 1), Leaves(c.2, depth - 1);
      TriangleMarksLeaves(c.0, depth - 1, width, height);
      TriangleMarksLeaves(c.1, depth - 1, width, height);
      TriangleMarksLeaves(c.2, depth - 1, width, height);
      UnionOfThree(l0, l1, l2, width, height);
      assert Leaves(t, depth) == l0 + l1 + l2;
    }
  }

  /** An axis-aligned box `[x0, x1] x [y0, y1]`. */
  predicate InBox(p: Point, x0: real, x1: real, y0: real, y1: real)
  {
    x0 <= p.x <= x1 && y0 <= p.y <= y1
  }

  predicate TriangleInBox(t: Triangle, x0: real, x1: real, y0: real, y1: real)
  {
    InBox(t.v1, x0, x1, y0, y1) && InBox(t.v2, x0, x1, y0, y1) && InBox(t.v3, x0, x1, y0, y1)
  }

  /** Every leaf of a triangle inside a box lies inside the box (midpoints never leave it). */
  lemma {:induction false} LeavesInBox(t: Triangle, depth: nat, x0: real, x1: real, y0: real, y1: real)
    requires TriangleInBox(t, x0, x1, y0, y1)
    decreases depth
    ensures forall i :: 0 <= i < |Leaves(t, depth)| ==> TriangleInBox(Leaves(t, depth)[i], x0, x1, y0, y1)
  {
    if depth > 0 {
      var c := Children(t);
      assert TriangleInBox(c.0, x0, x1, y0, y1) && TriangleInBox(c.1, x0, x1, y0, y1) && TriangleInBox(c.2, x0, x1, y0, y1);
      LeavesInBox(c.0, depth - 1, x0, x1, y0, y1);
      LeavesInBox(c.1, depth - 1, x0, x1, y0, y1);
      LeavesInBox(c.2, depth - 1, x0, x1, y0, y1);
      var l0, l1, l2 := Leaves(c.0, depth - 1), Leaves(c.1, depth - 1), Leaves(c.2, depth - 1);
      var all := Leaves(t, depth);
      assert all == l0 + l1 + l2;
      forall i | 0 <= i < |all|
        ensures TriangleInBox(all[i], x0, x1, y0, y1)
      {
        if i < |l0| {
          assert all[i] == l0[i];
        } else if i < |l0| + |l1| {
          assert all[i] == l1[i - |l0|];
        } else {
          assert all[i] == l2[i - |l0| - |l1|];
        }
      }
    }
  }

  /** The triangle `generate_sierpinski` starts from: apex at the top centre, base along the bottom margin. */
  function Initial(width: int, height: int): Triangle
  {
    Triangle(Point(width as real / 2.0, height as real * 0.1),
             Point(width as real * 0.1, height as real * 0.9),
             Point(width as real * 0.9, height as real * 0.9))
  }

  /**
   * Every leaf vertex lies in `[0.1 w, 0.9 w] x [0.1 h, 0.9 h]`, so on a non-empty
   * grid every one of them passes the in-bounds guard.
   */
  lemma InitialLeavesInBounds(width: nat, height: nat, depth: nat)
    ensures forall i :: 0 <= i < |Leaves(Initial(width, height), depth)| ==>
      TriangleInBox(Leaves(Initial(width, height), depth)[i], width as real * 0.1, width as real * 0.9, height as real * 0.1, height as real * 0.9)
    ensures 0 < width && 0 < height ==>
      forall i :: 0 <= i < |Leaves(Initial(width, height), depth)| ==>
        var t := Leaves(Initial(width, height), depth)[i];
        InBounds(t.v1, width, height) && InBounds(t.v2, width, height) && InBounds(t.v3, width, height)
  {
    LeavesInBox(Initial(width, height), depth, width as real * 0.1, width as real * 0.9, height as real * 0.1, height as real * 0.9);
  }

  /** `draw_triangle`: recursion on `depth`, setting the vertex cells of the depth-zero calls. */
  method DrawTriangle(pattern: array2<int>, t: Triangle, depth: nat)
    modifies pattern
    decreases depth
    ensures forall i, j :: 0 <= i < pattern.Length0 && 0 <= j < pattern.Length1 ==>
      pattern[i, j] == if (i, j) in TriangleMarks(t, depth, pattern.Length1, pattern.Length0) then 1 else old(pattern[i, j])
  {
    if depth == 0 {
      var vs := [t.v1, t.v2, t.v3];
      for k := 0 to 3
        invariant forall i, j :: 0 <= i < pattern.Length0 && 0 <= j < pattern.Length1 ==>
          pattern[i, j] == if (i, j) in PointMarks(vs, k, pattern.Length1, pattern.Length0) then 1 else old(pattern[i, j])
      {
        var v := vs[k];
        if 0.0 <= v.x < pattern.Length1 as real && 0.0 <= v.y < pattern.Length0 as real {
          InBoundsPixel(v, pattern.Length1, pattern.Length0);
          pattern[Trunc(v.y), Trunc(v.x)] := 1;
        }
      }
      return;
    }
    var m1 := Mid(t.v1, t.v2);
    var m2 := Mid(t.v2, t.v3);
    var m3 := Mid(t.v3, t.v1);
    DrawTriangle(pattern, Triangle(t.v1, m1, m3), depth - 1);
    DrawTriangle(pattern, Triangle(m1, t.v2, m2), depth - 1);
    DrawTriangle(pattern, Triangle(m3, m2, t.v3), depth - 1);
  }

  /**
   * `generate_sierpinski`: a `height x width` grid whose cell is 1 exactly when
   * the recursion from the initial triangle sets it, and 0 otherwise.
   */
  method GenerateSierpinski(width: nat, height: nat, depth: nat := 8) returns (pattern: array2<int>)
    ensures fresh(pattern) && pattern.Length0 == height && pattern.Length1 == width
    ensures forall i, j :: 0 <= i < height && 0 <= j < width ==>
      pattern[i, j] == if (i, j) in TriangleMarks(Initial(width, height), depth, width, height) then 1 else 0
  {
    pattern := new int[height, width]((i, j) => 0);
    DrawTriangle(pattern, Initial(width, height), depth);
  }
}
