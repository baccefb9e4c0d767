/**
 * The dragon-curve generator: the folding turn sequence, the quarter-turn
 * rotation of the step vector, and the walk that marks every in-bounds
 * position it reaches in a `height x width` grid of zeros.
 */
module DragonCurve {
  import opened Arith
  import opened Raster

  /** `[-x for x in turns][::-1]`: the sequence read backwards with every sign flipped. */
  function Mirror(t: seq<int>): (r: seq<int>)
    ensures |r| == |t|
    ensures forall i :: 0 <= i < |t| ==> r[i] == -t[|t| - 1 - i]
  {
    if t == [] then [] else Mirror(t[1..]) + [-t[0]]
  }

  /** `dragon_points(n)`: `[1]`, then `n` times `turns + [1] + Mirror(turns)`. */
  function DragonPoints(n: nat): seq<int>
  {
    if n == 0 then [1] else DragonPoints(n - 1) + [1] + Mirror(DragonPoints(n - 1))
  }

  /** `dragon_points` as the source computes it: a loop that rebinds `turns`. */
  method DragonTurns(n: nat) returns (turns: seq<int>)
    ensures turns == DragonPoints(n)
  {
    turns := [1];
    for i := 0 to n
      invariant turns == DragonPoints(i)
    {
      turns := turns + [1] + Mirror(turns);
    }
  }

  /** `n` folds give `2^(n+1) - 1` turns. */
  lemma {:induction false} DragonLength(n: nat)
    ensures |DragonPoints(n)| == Pow(2, n + 1) - 1
  {
    if n > 0 {
      DragonLength(n - 1);
    }
  }

  /** Every turn is a left turn (`1`) or a right turn (`-1`). */
  lemma {:induction false} DragonEntries(n: nat)
    ensures forall i :: 0 <= i < |DragonPoints(n)| ==> DragonPoints(n)[i] == 1 || DragonPoints(n)[i] == -1
  {
    if n > 0 {
      DragonEntries(n - 1);
      var t := DragonPoints(n - 1);
      assert DragonPoints(n) == t + [1] + Mirror(t);
      forall i | 0 <= i < |DragonPoints(n)|
        ensures DragonPoints(n)[i] == 1 || DragonPoints(n)[i] == -1
      {
        if i > |t| {
          assert DragonPoints(n)[i] == Mirror(t)[i - |t| - 1] == -t[|t| - 1 - (i - |t| - 1)];
        }
      }
    }
  }

  /** One more fold keeps the earlier turns as a prefix and follows them with a left turn. */
  lemma DragonPrefix(n: nat)
    ensures |DragonPoints(n)| < |DragonPoints(n + 1)|
    ensures DragonPoints(n + 1)[..|DragonPoints(n)|] == DragonPoints(n)
    ensures DragonPoints(n + 1)[|DragonPoints(n)|] == 1
  {
    var t := DragonPoints(n);
    assert DragonPoints(n + 1) == t + [1] + Mirror(t);
    assert (t + [1] + Mirror(t))[..|t|] == t;
  }

  /** Fold symmetry: the second half of the next sequence is the current one reversed, with flipped signs. */
  lemma DragonFold(n: nat, i: nat)
    requires i < |DragonPoints(n)|
    ensures |DragonPoints(n + 1)| == 2 * |DragonPoints(n)| + 1
    ensures DragonPoints(n + 1)[|DragonPoints(n + 1)| - 1 - i] == -DragonPoints(n)[i]
  {
    var t := DragonPoints(n);
    assert DragonPoints(n + 1) == t + [1] + Mirror(t);
    assert (t + [1] + Mirror(t))[2 * |t| - i] == Mirror(t)[|t| - 1 - i];
  }

  /** The step vector `(dx, dy)`. */
  datatype Vec = Vec(dx: real, dy: real)

  /**
   * A quarter turn of the step vector: the result keeps the length, is
   * perpendicular to `v`, and lies on the positive side of `v` (cross
   * product `|v|^2`) for turn `1` and on the negative side for any other turn.
   */
  function Turn(v: Vec, turn: int): (r: Vec)
    ensures r.dx * r.dx + r.dy * r.dy == v.dx * v.dx + v.dy * v.dy
    ensures r.dx * v.dx + r.dy * v.dy == 0.0
    ensures v.dx * r.dy - v.dy * r.dx == (if turn == 1 then 1.0 else -1.0) * (v.dx * v.dx + v.dy * v.dy)
  {
    if turn == 1 then Vec(-v.dy, v.dx) else Vec(v.dy, -v.dx)
  }

  /** A left turn followed by a right turn, or a right turn followed by a left turn, changes nothing. */
  lemma TurnsCancel(v: Vec)
    ensures Turn(Turn(v, 1), -1) == v
    ensures Turn(Turn(v, -1), 1) == v
  {
  }

  /** Four equal turns bring the step vector back. */
  lemma FourTurns(v: Vec, turn: int)
    ensures Turn(Turn(Turn(Turn(v, turn), turn), turn), turn) == v
  {
  }

  /** The vector lies on an axis with length `s`: one component is zero, the other is `s` or `-s`. */
  predicate Axis(v: Vec, s: real)
  {
    || (v.dx == 0.0 && (v.dy == s || v.dy == -s))
    || (v.dy == 0.0 && (v.dx == s || v.dx == -s))
  }

  /** With a positive step size an axis vector has exactly one non-zero component. */
  lemma AxisOneNonzero(v: Vec, s: real)
    requires 0.0 < s && Axis(v, s)
    ensures (v.dx != 0.0) != (v.dy != 0.0)
    ensures v.dx == s || v.dx == -s || v.dy == s || v.dy == -s
  {
  }

  /** The position and step vector of the walk. */
  datatype Walker = Walker(pos: Point, step: Vec)

  /** One iteration of the walk loop: rotate the step vector, then move by it. */
  function Advance(w: Walker, turn: int): Walker
  {
    var v := Turn(w.step, turn);
    Walker(Point(w.pos.x + v.dx, w.pos.y + v.dy), v)
  }

  /** The walker after the first `k` of `turns`, starting from `w`. */
  function WalkAt(w: Walker, turns: seq<int>, k: nat): Walker
    requires k <= |turns|
  {
    if k == 0 then w else Advance(WalkAt(w, turns, k - 1), turns[k - 1])
  }

  /**
   * The cells the walk marks during its first `k` turns: the pixel of every
   * position reached after a turn that passes the in-bounds guard. The start
   * position is not among them.
   */
  function MarksAt(w: Walker, turns: seq<int>, k: nat, width: int, height: int): set<(int, int)>
    requires k <= |turns|
  {
    if k == 0 then {}
    else
      var p := WalkAt(w, turns, k).pos;
      MarksAt(w, turns, k - 1, width, height) + if InBounds(p, width, height) then {PixelOf(p)} else {}
  }

  /** Every marked cell lies inside the grid, and there are at most as many as there are turns taken. */
  lemma {:induction false} MarksBounded(w: Walker, turns: seq<int>, k: nat, width: int, height: int)
    requires k <= |turns|
    ensures forall c :: c in MarksAt(w, turns, k, width, height) ==> 0 <= c.0 < height && 0 <= c.1 < width
    ensures |MarksAt(w, turns, k, width, height)| <= k
  {
    if k > 0 {
      MarksBounded(w, turns, k - 1, width, height);
      var p := WalkAt(w, turns, k).pos;
      if InBounds(p, width, height) {
        InBoundsPixel(p, width, height);
      }
    }
  }

  /** The step vector stays on an axis with its length throughout the walk. */
  lemma {:induction false} WalkAxis(w: Walker, turns: seq<int>, k: nat, s: real)
    requires k <= |turns| && Axis(w.step, s)
    ensures Axis(WalkAt(w, turns, k).step, s)
  {
    if k > 0 {
      WalkAxis(w, turns, k - 1, s);
    }
  }

  /** Turn `n` of the walk (counting from 1) reaches an in-bounds position whose pixel is `c`. */
  predicate MarkedBy(w: Walker, turns: seq<int>, n: nat, width: int, height: int, c: (int, int))
    requires n <= |turns|
  {
    InBounds(WalkAt(w, turns, n).pos, width, height) && PixelOf(WalkAt(w, turns, n).pos) == c
  }

  /** A cell is marked exactly when some position reached after a turn is in bounds and has that pixel. */
  lemma {:induction false} MarksExactly(w: Walker, turns: seq<int>, k: nat, width: int, height: int, c: (int, int))
    requires k <= |turns|
    ensures c in MarksAt(w, turns, k, width, height) <==> exists n :: 1 <= n <= k && MarkedBy(w, turns, n, width, height, c)
  {
    if k > 0 {
      MarksExactly(w, turns, k - 1, width, height, c);
      assert c in MarksAt(w, turns, k, width, height) <==>
        c in MarksAt(w, turns, k - 1, width, height) || MarkedBy(w, turns, k, width, height, c);
      if MarkedBy(w, turns, k, width, height, c) {
        assert 1 <= k <= k;
      } else if c !in MarksAt(w, turns, k - 1, width, height) {
        forall n | 1 <= n <= k
          ensures !MarkedBy(w, turns, n, width, height, c)
        {
        }
      }
    }
  }

  /**
   * One iteration of the walk loop (lines 19-25 of `generate_dragon_curve`): rotate
   * the step vector by the turn, move by it, and set the cell under the new
   * position to 1 when the position is in bounds.
   */
  method WalkStep(pattern: array2<int>, x: real, y: real, dx: real, dy: real, turn: int)
    returns (x': real, y': real, dx': real, dy': real)
    modifies pattern
    ensures Walker(Point(x', y'), Vec(dx', dy')) == Advance(Walker(Point(x, y), Vec(dx, dy)), turn)
    ensures forall i, j :: 0 <= i < pattern.Length0 && 0 <= j < pattern.Length1 ==>
      pattern[i, j] == if InBounds(Point(x', y'), pattern.Length1, pattern.Length0) && (i, j) == PixelOf(Point(x', y')) then 1 else old(pattern[i, j])
  {
    if turn == 1 {
      dx', dy' := -dy, dx;
    } else {
      dx', dy' := dy, -dx;
    }
    x', y' := x + dx', y + dy';
    if 0.0 <= x' < pattern.Length1 as real && 0.0 <= y' < pattern.Length0 as real {
      InBoundsPixel(Point(x', y'), pattern.Length1, pattern.Length0);
      pattern[Trunc(y'), Trunc(x')] := 1;
    }
  }

  /** The walk loop of `generate_dragon_curve` (lines 18-25) over any turn sequence, from walker `start`. */
  method Walk(pattern: array2<int>, start: Walker, turns: seq<int>)
    modifies pattern
    ensures forall i, j :: 0 <= i < pattern.Length0 && 0 <= j < pattern.Length1 ==>
      pattern[i, j] == if (i, j) in MarksAt(start, turns, |turns|, pattern.Length1, pattern.Length0) then 1 else old(pattern[i, j])
  {
    var x, y := start.pos.x, start.pos.y;
    var dx, dy := start.step.dx, start.step.dy;
    ghost var marks: set<(int, int)> := {};
    for k := 0 to |turns|
      invariant WalkAt(start, turns, k) == Walker(Point(x, y), Vec(dx, dy))
      invariant marks == MarksAt(start, turns, k, pattern.Length1, pattern.Length0)
      invariant forall i, j :: 0 <= i < pattern.Length0 && 0 <= j < pattern.Length1 ==>
        pattern[i, j] == if (i, j) in marks then 1 else old(pattern[i, j])
    {
      x, y, dx, dy := WalkStep(pattern, x, y, dx, dy, turns[k]);
      marks := marks + if InBounds(Point(x, y), pattern.Length1, pattern.Length0) then {PixelOf(Point(x, y))} else {};
    }
  }

  /**
   * `generate_dragon_curve`. `stepSize` stands for the float
   * `min(width, height) / 2 ** (iterations / 2)`; positions are exact reals. The walk
   * starts at `(width // 3, height // 2)` with step `(stepSize, 0)`, and a cell is 1
   * exactly when the walk marks it.
   */
  method GenerateDragonCurve(width: nat, height: nat, stepSize: real, iterations: nat := 12)
    returns (pattern: array2<int>)
    ensures fresh(pattern) && pattern.Length0 == height && pattern.Length1 == width
    ensures forall i, j :: 0 <= i < height && 0 <= j < width ==>
      pattern[i, j] == if (i, j) in MarksAt(Walker(Point((width / 3) as real, (height / 2) as real), Vec(stepSize, 0.0)), DragonPoints(iterations), |DragonPoints(iterations)|, width, height) then 1 else 0
  {
    pattern := new int[height, width]((i, j) => 0);
    var turns := DragonTurns(iterations);
    Walk(pattern, Walker(Point((width / 3) as real, (height / 2) as real), Vec(stepSize, 0.0)), turns);
  }
}
