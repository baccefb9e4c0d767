/**
 * The L-system generator: the rewriting of `F` into `F[+F]F[-F]F`, and the
 * turtle that reads the derived string with an integer heading and a stack of
 * saved states, marking the cells of every segment it draws inside the grid.
 */
module LSystem {
  import opened Arith
  import opened Raster

  /** `rules.get(c, c)` for the single rule `F -> F[+F]F[-F]F`. */
  function Rewrite(c: char): string
  {
    if c == 'F' then "F[+F]F[-F]F" else [c]
  }

  /** `''.join(rules.get(c, c) for c in current)`: one generation. */
  function Expand(s: string): string
  {
    if s == [] then [] else Rewrite(s[0]) + Expand(s[1..])
  }

  /** The string after `n` generations from the axiom `F`. */
  function Generation(n: nat): string
  {
    if n == 0 then "F" else Expand(Generation(n - 1))
  }

  /** The rewriting loop of `generate_lsystem`. */
  method Derive(iterations: nat) returns (current: string)
    ensures current == Generation(iterations)
  {
    current := "F";
    for i := 0 to iterations
      invariant current == Generation(i)
    {
      current := Expand(current);
    }
  }

  /** Occurrences of `c` in `s`. */
  function Count(c: char, s: string): nat
  {
    if s == [] then 0 else (if s[0] == c then 1 else 0) + Count(c, s[1..])
  }

  lemma {:induction false} CountConcat(c: char, a: string, b: string)
    ensures Count(c, a + b) == Count(c, a) + Count(c, b)
  {
    if a == [] {
      assert a + b == b;
    } else {
      assert (a + b)[0] == a[0] && (a + b)[1..] == a[1..] + b;
      CountConcat(c, a[1..], b);
    }
  }

  /** The right-hand side of the rule has five `F`s among its eleven characters. */
  lemma RuleCount()
    ensures |Rewrite('F')| == 11 && Count('F', Rewrite('F')) == 5
  {
    var r := Rewrite('F');
    assert Count('F', "F") == 1;
    assert Count('F', "]F") == 1;
    assert Count('F', "F]F") == 2;
    assert Count('F', "-F]F") == 2;
    assert Count('F', "[-F]F") == 2;
    assert Count('F', "F[-F]F") == 3;
    assert Count('F', "]F[-F]F") == 3;
    assert Count('F', "F]F[-F]F") == 4;
    assert Count('F', "+F]F[-F]F") == 4;
    assert Count('F', "[+F]F[-F]F") == 4;
    assert Count('F', r) == 5;
  }

  /** The right-hand side of the rule closes every bracket it opens. */
  lemma RuleDepth()
    ensures Depth(Rewrite('F')) == 0
  {
    var r := Rewrite('F');
    assert Depth("F") == 0;
    assert Depth("]F") == -1;
    assert Depth("F]F") == -1;
    assert Depth("-F]F") == -1;
    assert Depth("[-F]F") == 0;
    assert Depth("F[-F]F") == 0;
    assert Depth("]F[-F]F") == -1;
    assert Depth("F]F[-F]F") == -1;
    assert Depth("+F]F[-F]F") == -1;
    assert Depth("[+F]F[-F]F") == 0;
    assert Depth(r) == 0;
  }

  /** The right-hand side of the rule is nested from any depth: its turns sit inside its brackets. */
  lemma RuleNested(d: int)
    requires 0 <= d
    ensures Nested(Rewrite('F'), d)
  {
    var r := Rewrite('F');
    assert Nested("F", d);
    assert Nested("]F", d + 1);
    assert Nested("F]F", d + 1);
    assert Nested("-F]F", d + 1);
    assert Nested("[-F]F", d);
    assert Nested("F[-F]F", d);
    assert Nested("]F[-F]F", d + 1);
    assert Nested("F]F[-F]F", d + 1);
    assert Nested("+F]F[-F]F", d + 1);
    assert Nested("[+F]F[-F]F", d);
    assert Nested(r, d);
  }

  /** Rewriting one character: an `F` becomes five `F`s among eleven characters, anything else stays one character. */
  lemma RewriteCounts(c: char)
    ensures Count('F', Rewrite(c)) == if c == 'F' then 5 else 0
    ensures |Rewrite(c)| == if c == 'F' then 11 else 1
  {
    if c == 'F' {
      RuleCount();
    } else {
      assert Rewrite(c) == [c];
      assert Count('F', [c]) == 0 + Count('F', []);
    }
  }

  /** A generation multiplies the `F`s by five and adds ten characters per `F`. */
  lemma {:induction false} ExpandCounts(s: string)
    ensures Count('F', Expand(s)) == 5 * Count('F', s)
    ensures |Expand(s)| == |s| + 10 * Count('F', s)
  {
    if s != [] {
      var r, rest := Rewrite(s[0]), Expand(s[1..]);
      assert Expand(s) == r + rest;
      ExpandCounts(s[1..]);
      CountConcat('F', r, rest);
      RewriteCounts(s[0]);
      assert Count('F', s) == (if s[0] == 'F' then 1 else 0) + Count('F', s[1..]);
    }
  }

  /** After `n` generations there are exactly `5^n` `F`s. */
  lemma {:induction false} GenerationCountF(n: nat)
    ensures Count('F', Generation(n)) == Pow(5, n)
  {
    if n > 0 {
      GenerationCountF(n - 1);
      ExpandCounts(Generation(n - 1));
    }
  }

  /** The length starts at 1 and grows by `10 * 5^n` in generation `n + 1`. */
  lemma GenerationLength(n: nat)
    ensures |Generation(0)| == 1
    ensures |Generation(n + 1)| == |Generation(n)| + 10 * Pow(5, n)
  {
    GenerationCountF(n);
    ExpandCounts(Generation(n));
  }

  /** The characters the turtle understands. */
  predicate InAlphabet(s: string)
  {
    forall i :: 0 <= i < |s| ==> s[i] in "F+-[]"
  }

  lemma {:induction false} ExpandAlphabet(s: string)
    requires InAlphabet(s)
    ensures InAlphabet(Expand(s))
  {
    if s != [] {
      ExpandAlphabet(s[1..]);
      var r := Rewrite(s[0]);
      assert InAlphabet(r);
      assert Expand(s) == r + Expand(s[1..]);
    }
  }

  /** Every generation is written over `F + - [ ]` alone. */
  lemma {:induction false} GenerationAlphabet(n: nat)
    ensures InAlphabet(Generation(n))
  {
    if n > 0 {
      GenerationAlphabet(n - 1);
      ExpandAlphabet(Generation(n - 1));
    }
  }

  /** Opening minus closing brackets. */
  function Depth(s: string): int
  {
    if s == [] then 0 else (if s[0] == '[' then 1 else if s[0] == ']' then -1 else 0) + Depth(s[1..])
  }

  lemma {:induction false} DepthConcat(a: string, b: string)
    ensures Depth(a + b) == Depth(a) + Depth(b)
  {
    if a == [] {
      assert a + b == b;
    } else {
      assert (a + b)[0] == a[0] && (a + b)[1..] == a[1..] + b;
      DepthConcat(a[1..], b);
    }
  }

  lemma {:induction false} DepthCounts(s: string)
    ensures Depth(s) == Count('[', s) - Count(']', s)
  {
    if s != [] {
      DepthCounts(s[1..]);
    }
  }

  /**
   * Read from bracket depth `d`, the string never closes a bracket it has not
   * opened, and it turns (`+`, `-`) only inside a bracket.
   */
  predicate Nested(s: string, d: int)
  {
    if s == [] then true
    else if s[0] == '[' then Nested(s[1..], d + 1)
    else if s[0] == ']' then 1 <= d && Nested(s[1..], d - 1)
    else if s[0] == '+' || s[0] == '-' then 1 <= d && Nested(s[1..], d)
    else Nested(s[1..], d)
  }

  lemma {:induction false} NestedConcat(a: string, b: string, d: int)
    requires Nested(a, d) && Nested(b, d + Depth(a))
    ensures Nested(a + b, d)
  {
    if a == [] {
      assert a + b == b;
    } else {
      assert (a + b)[0] == a[0] && (a + b)[1..] == a[1..] + b;
      var e := if a[0] == '[' then d + 1 else if a[0] == ']' then d - 1 else d;
      NestedConcat(a[1..], b, e);
    }
  }

  /** The depth after reading `c` from depth `d`. */
  function StepDepth(c: char, d: int): int
  {
    if c == '[' then d + 1 else if c == ']' then d - 1 else d
  }

  /** Rewriting one character that is allowed at depth `d` gives a string nested from `d`, with the same depth change. */
  lemma RewriteNested(c: char, d: int)
    requires 0 <= d && Nested([c], d)
    ensures Nested(Rewrite(c), d) && Depth(Rewrite(c)) == StepDepth(c, d) - d
  {
    if c == 'F' {
      RuleDepth();
      RuleNested(d);
    } else {
      assert Rewrite(c) == [c] && [c][1..] == [];
    }
  }

  /** A generation keeps the nesting of its input, starting from any depth. */
  lemma {:induction false} ExpandNested(s: string, d: int)
    requires 0 <= d && Nested(s, d)
    ensures Nested(Expand(s), d) && Depth(Expand(s)) == Depth(s)
  {
    if s != [] {
      var e := StepDepth(s[0], d);
      assert Nested(s[1..], e);
      ExpandNested(s[1..], e);
      assert [s[0]][1..] == [];
      RewriteNested(s[0], d);
      NestedConcat(Rewrite(s[0]), Expand(s[1..]), d);
      DepthConcat(Rewrite(s[0]), Expand(s[1..]));
    }
  }

  /** A nested string never dips below depth zero on any prefix. */
  lemma {:induction false} NestedPrefixes(s: string, d: int, k: nat)
    requires 0 <= d && Nested(s, d) && k <= |s|
    ensures 0 <= d + Depth(s[..k])
  {
    if k > 0 {
      var e := if s[0] == '[' then d + 1 else if s[0] == ']' then d - 1 else d;
      NestedPrefixes(s[1..], e, k - 1);
      assert s[..k][1..] == s[1..][..k - 1];
    }
  }

  /**
   * Brackets in every generation are balanced: as many `[` as `]`, and no
   * prefix closes more than it opens.
   */
  lemma {:induction false} GenerationBalanced(n: nat)
    ensures Nested(Generation(n), 0) && Depth(Generation(n)) == 0
    ensures Count('[', Generation(n)) == Count(']', Generation(n))
    ensures forall k :: 0 <= k <= |Generation(n)| ==> 0 <= Depth(Generation(n)[..k])
  {
    if n > 0 {
      GenerationBalanced(n - 1);
      ExpandNested(Generation(n - 1), 0);
    }
    DepthCounts(Generation(n));
    forall k | 0 <= k <= |Generation(n)|
      ensures 0 <= Depth(Generation(n)[..k])
    {
      NestedPrefixes(Generation(n), 0, k);
    }
  }

  /** The turtle: position, integer heading in degrees, and the stack of saved `(x, y, angle)`. */
  datatype Turtle = Turtle(x: real, y: real, angle: int, stack: seq<(real, real, int)>)

  /**
   * One character of the interpreter loop. `offset(angle)` stands for the move
   * `(length * cos(radians(angle)), length * sin(radians(angle)))`.
   */
  function Act(t: Turtle, c: char, offset: int -> (real, real)): (r: Turtle)
    // only the brackets touch the stack, only `F` and a pop move the turtle,
    // and only the turns and a pop change the heading
    ensures c != '[' && c != ']' ==> r.stack == t.stack
    ensures c != 'F' && !(c == ']' && t.stack != []) ==> r.x == t.x && r.y == t.y
    ensures c != '+' && c != '-' && !(c == ']' && t.stack != []) ==> r.angle == t.angle
    // a step advances the position by the offset of the current heading
    ensures c == 'F' ==> r.x == t.x + offset(t.angle).0 && r.y == t.y + offset(t.angle).1
    ensures c == '+' ==> r.angle == t.angle + 25
    ensures c == '-' ==> r.angle == t.angle - 25
    // `[` saves the whole state on top of the stack; `]` restores the top and removes it
    ensures c == '[' ==> r.stack == t.stack + [(t.x, t.y, t.angle)]
    ensures c == ']' && t.stack != [] ==>
      r.stack == t.stack[..|t.stack| - 1] && (r.x, r.y, r.angle) == t.stack[|t.stack| - 1]
    // an unmatched `]` and any character outside the alphabet change nothing
    ensures c == ']' && t.stack == [] ==> r == t
    ensures c !in "F+-[]" ==> r == t
  {
    if c == 'F' then t.(x := t.x + offset(t.angle).0, y := t.y + offset(t.angle).1)
    else if c == '+' then t.(angle := t.angle + 25)
    else if c == '-' then t.(angle := t.angle - 25)
    else if c == '[' then t.(stack := t.stack + [(t.x, t.y, t.angle)])
    else if c == ']' && t.stack != [] then
      var top := t.stack[|t.stack| - 1];
      Turtle(top.0, top.1, top.2, t.stack[..|t.stack| - 1])
    else t
  }

  /** Saving the state with `[` and restoring it with `]` gives back the turtle unchanged. */
  lemma PushPop(t: Turtle, offset: int -> (real, real))
    ensures Act(Act(t, '[', offset), ']', offset) == t
  {
    var p := Act(t, '[', offset);
    assert p.stack[..|p.stack| - 1] == t.stack;
  }

  /** The turtle after reading `s` from `t`. */
  function Run(s: string, t: Turtle, offset: int -> (real, real)): Turtle
  {
    if s == [] then t else Run(s[1..], Act(t, s[0], offset), offset)
  }

  /** Reading `s` from `t` reaches a `]` while the stack is empty. */
  predicate PopsEmpty(s: string, t: Turtle, offset: int -> (real, real))
  {
    s != [] && ((s[0] == ']' && t.stack == []) || PopsEmpty(s[1..], Act(t, s[0], offset), offset))
  }

  /**
   * The stack of `t` is `base` with `d` saved states on top, the heading is
   * `home` at depth zero, and the lowest saved state holds `home`.
   */
  predicate Anchored(t: Turtle, d: int, base: seq<(real, real, int)>, home: int)
  {
    && 0 <= d && |t.stack| == |base| + d && t.stack[..|base|] == base
    && (d == 0 ==> t.angle == home)
    && (0 < d ==> t.stack[|base|].2 == home)
  }

  lemma ActAnchored(t: Turtle, c: char, d: int, base: seq<(real, real, int)>, home: int, offset: int -> (real, real))
    requires Anchored(t, d, base, home)
    requires c == ']' ==> 1 <= d
    requires c == '+' || c == '-' ==> 1 <= d
    ensures Anchored(Act(t, c, offset), if c == '[' then d + 1 else if c == ']' then d - 1 else d, base, home)
    ensures c == ']' ==> t.stack != []
  {
    if c == '[' {
      assert (t.stack + [(t.x, t.y, t.angle)])[..|base|] == t.stack[..|base|];
    } else if c == ']' {
      var n := |t.stack|;
      assert t.stack[..n - 1][..|base|] == t.stack[..|base|];
    }
  }

  /**
   * Reading a nested string from an anchored turtle keeps it anchored, at the
   * depth the string ends on, and never pops an empty stack.
   */
  lemma {:induction false} RunAnchored(s: string, t: Turtle, d: int, base: seq<(real, real, int)>, home: int, offset: int -> (real, real))
    requires Nested(s, d) && Anchored(t, d, base, home)
    ensures Anchored(Run(s, t, offset), d + Depth(s), base, home)
    ensures !PopsEmpty(s, t, offset)
  {
    if s != [] {
      var c := s[0];
      var e := if c == '[' then d + 1 else if c == ']' then d - 1 else d;
      ActAnchored(t, c, d, base, home, offset);
      RunAnchored(s[1..], Act(t, c, offset), e, base, home, offset);
    }
  }

  /** The turtle `generate_lsystem` starts with. */
  function Start(width: int, height: int): Turtle
  {
    Turtle(width as real / 2.0, (height - 20) as real, -90, [])
  }

  /**
   * Reading any generation from the start leaves the stack empty and the heading
   * at -90, and the empty-stack branch of `]` is never taken.
   */
  lemma GenerationRestores(n: nat, width: int, height: int, offset: int -> (real, real))
    ensures Run(Generation(n), Start(width, height), offset).stack == []
    ensures Run(Generation(n), Start(width, height), offset).angle == -90
    ensures !PopsEmpty(Generation(n), Start(width, height), offset)
  {
    GenerationBalanced(n);
    RunAnchored(Generation(n), Start(width, height), 0, [], -90, offset);
  }

  /** `a * (1 - t) + b * t` for sample `t = i / 9` of `np.linspace(0, 1, 10)`. */
  function Lerp(a: real, b: real, i: nat): real
  {
    a * (1.0 - i as real / 9.0) + b * (i as real / 9.0)
  }

  /** The cells the first `i` samples of a segment set: those whose truncated coordinates are in bounds. */
  function SampleMarks(x: real, y: real, nx: real, ny: real, i: nat, width: int, height: int): set<(int, int)>
  {
    if i == 0 then {}
    else
      var px := Trunc(Lerp(x, nx, i - 1));
      var py := Trunc(Lerp(y, ny, i - 1));
      SampleMarks(x, y, nx, ny, i - 1, width, height) + if 0 <= px < width && 0 <= py < height then {(py, px)} else {}
  }

  /** The cells an `F` from `(x, y)` to `(nx, ny)` sets: none unless both ends pass the guard. */
  function SegmentMarks(x: real, y: real, nx: real, ny: real, width: int, height: int): set<(int, int)>
  {
    if InBounds(Point(x, y), width, height) && InBounds(Point(nx, ny), width, height) then
      SampleMarks(x, y, nx, ny, 10, width, height)
    else {}
  }

  /** A sample between two ends in `[0, n)` lies in `[0, n)`. */
  lemma LerpInside(a: real, b: real, i: nat, n: real)
    requires 0.0 <= a < n && 0.0 <= b < n && i < 10
    ensures 0.0 <= Lerp(a, b, i) < n
  {
    if i == 0 {
      assert Lerp(a, b, i) == a;
    } else {
      LerpInsidePositive(a, b, i, n);
    }
  }

  /** Past the first sample the far end has a positive weight, so the sample stays strictly below `n`. */
  lemma LerpInsidePositive(a: real, b: real, i: nat, n: real)
    requires 0.0 <= a < n && 0.0 <= b < n && 0 < i < 10
    ensures 0.0 <= Lerp(a, b, i) < n
  {
    var t := i as real / 9.0;
    var u := 1.0 - t;
    assert 0.0 < t <= 1.0 && 0.0 <= u;
    ScaleBelow(0.0, a, u);
    ScaleBelow(a, n, u);
    ScaleBelow(0.0, b, t);
    ScaleStrict(b, n, t);
    Distribute(n, u, t);
    Between(a * u, b * t, n * u, n * t, n);
  }

  /** Scaling by a non-negative factor keeps an order. */
  lemma ScaleBelow(p: real, q: real, f: real)
    requires p <= q && 0.0 <= f
    ensures p * f <= q * f
  {
  }

  /** Scaling by a positive factor keeps a strict order. */
  lemma ScaleStrict(p: real, q: real, f: real)
    requires p < q && 0.0 < f
    ensures p * f < q * f
  {
  }

  /** Weights that sum to one split `n` into two parts. */
  lemma Distribute(n: real, u: real, t: real)
    requires u + t == 1.0
    ensures n * u + n * t == n
  {
    assert n * u + n * t == n * (u + t);
  }

  /** Two shares below their bounds, the second strictly, sum strictly below the sum of the bounds. */
  lemma Between(x: real, y: real, p: real, q: real, n: real)
    requires 0.0 <= x <= p && 0.0 <= y < q && p + q == n
    ensures 0.0 <= x + y < n
  {
  }

  /** With both ends in bounds, every sample passes the inner bounds check, so that check never fails. */
  lemma SamplesInside(x: real, y: real, nx: real, ny: real, i: nat, width: int, height: int)
    requires InBounds(Point(x, y), width, height) && InBounds(Point(nx, ny), width, height) && i < 10
    ensures 0 <= Trunc(Lerp(x, nx, i)) < width && 0 <= Trunc(Lerp(y, ny, i)) < height
  {
    LerpInside(x, nx, i, width as real);
    LerpInside(y, ny, i, height as real);
  }

  /** The cells one character sets: only an `F` draws. */
  function StepMarks(t: Turtle, c: char, width: int, height: int, offset: int -> (real, real)): set<(int, int)>
  {
    if c == 'F' then
      var r := Act(t, c, offset);
      SegmentMarks(t.x, t.y, r.x, r.y, width, height)
    else {}
  }

  /** The cells reading `s` from `t` sets. */
  function RunMarks(s: string, t: Turtle, width: int, height: int, offset: int -> (real, real)): set<(int, int)>
  {
    if s == [] then {} else StepMarks(t, s[0], width, height, offset) + RunMarks(s[1..], Act(t, s[0], offset), width, height, offset)
  }

  lemma {:induction false} SampleMarksInGrid(x: real, y: real, nx: real, ny: real, i: nat, width: int, height: int)
    ensures forall c :: c in SampleMarks(x, y, nx, ny, i, width, height) ==> 0 <= c.0 < height && 0 <= c.1 < width
  {
    if i > 0 {
      SampleMarksInGrid(x, y, nx, ny, i - 1, width, height);
    }
  }

  /** Only cells inside the grid are ever set. */
  lemma {:induction false} RunMarksInGrid(s: string, t: Turtle, width: int, height: int, offset: int -> (real, real))
    ensures forall c :: c in RunMarks(s, t, width, height, offset) ==> 0 <= c.0 < height && 0 <= c.1 < width
  {
    if s != [] {
      RunMarksInGrid(s[1..], Act(t, s[0], offset), width, height, offset);
      var r := Act(t, s[0], offset);
      SampleMarksInGrid(t.x, t.y, r.x, r.y, 10, width, height);
    }
  }

  /** Lines 24-29 of `generate_lsystem`: the ten samples of one segment. */
  method DrawSegment(pattern: array2<int>, x: real, y: real, nx: real, ny: real)
    modifies pattern
    ensures forall i, j :: 0 <= i < pattern.Length0 && 0 <= j < pattern.Length1 ==>
      pattern[i, j] == if (i, j) in SampleMarks(x, y, nx, ny, 10, pattern.Length1, pattern.Length0) then 1 else old(pattern[i, j])
  {
    ghost var marks: set<(int, int)> := {};
    for i := 0 to 10
      invariant marks == SampleMarks(x, y, nx, ny, i, pattern.Length1, pattern.Length0)
      invariant forall r, c :: 0 <= r < pattern.Length0 && 0 <= c < pattern.Length1 ==>
        pattern[r, c] == if (r, c) in marks then 1 else old(pattern[r, c])
    {
      var px := Trunc(Lerp(x, nx, i));
      var py := Trunc(Lerp(y, ny, i));
      if 0 <= px < pattern.Length1 && 0 <= py < pattern.Length0 {
        pattern[py, px] := 1;
        marks := marks + {(py, px)};
      }
    }
  }

  /** One character of the interpreter loop (lines 19-36), on the turtle's variables and the grid. */
  method Step(pattern: array2<int>, x: real, y: real, angle: int, stack: seq<(real, real, int)>, c: char, offset: int -> (real, real))
    returns (x': real, y': real, angle': int, stack': seq<(real, real, int)>)
    modifies pattern
    ensures Turtle(x', y', angle', stack') == Act(Turtle(x, y, angle, stack), c, offset)
    ensures forall i, j :: 0 <= i < pattern.Length0 && 0 <= j < pattern.Length1 ==>
      pattern[i, j] == if (i, j) in StepMarks(Turtle(x, y, angle, stack), c, pattern.Length1, pattern.Length0, offset) then 1 else old(pattern[i, j])
  {
    x', y', angle', stack' := x, y, angle, stack;
    if c == 'F' {
      var nx := x + offset(angle).0;
      var ny := y + offset(angle).1;
      if 0.0 <= x < pattern.Length1 as real && 0.0 <= y < pattern.Length0 as real
         && 0.0 <= nx < pattern.Length1 as real && 0.0 <= ny < pattern.Length0 as real {
        DrawSegment(pattern, x, y, nx, ny);
      }
      x', y' := nx, ny;
    } else if c == '+' {
      angle' := angle + 25;
    } else if c == '-' {
      angle' := angle - 25;
    } else if c == '[' {
      stack' := stack + [(x, y, angle)];
    } else if c == ']' {
      if stack != [] {
        var top := stack[|stack| - 1];
        x', y', angle' := top.0, top.1, top.2;
        stack' := stack[..|stack| - 1];
      }
    }
  }

  /**
   * `generate_lsystem`. `offset` stands for the float move of an `F` at a given
   * heading. A cell of the result is 1 exactly when a drawn segment sets it, so
   * every cell is 0 or 1.
   */
  method GenerateLSystem(width: nat, height: nat, offset: int -> (real, real), iterations: nat := 5)
    returns (pattern: array2<int>)
    ensures fresh(pattern) && pattern.Length0 == height && pattern.Length1 == width
    ensures forall i, j :: 0 <= i < height && 0 <= j < width ==>
      pattern[i, j] == if (i, j) in RunMarks(Generation(iterations), Start(width, height), width, height, offset) then 1 else 0
  {
    pattern := new int[height, width]((i, j) => 0);
    var current := Derive(iterations);
    var x, y := width as real / 2.0, (height - 20) as real;
    var angle := -90;
    var stack: seq<(real, real, int)> := [];
    ghost var marks: set<(int, int)> := {};
    for k := 0 to |current|
      invariant RunMarks(current, Start(width, height), width, height, offset)
             == marks + RunMarks(current[k..], Turtle(x, y, angle, stack), width, height, offset)
      invariant forall i, j :: 0 <= i < height && 0 <= j < width ==> pattern[i, j] == if (i, j) in marks then 1 else 0
    {
      ghost var t := Turtle(x, y, angle, stack);
      assert current[k..][1..] == current[k + 1..];
      marks := marks + StepMarks(t, current[k], width, height, offset);
      x, y, angle, stack := Step(pattern, x, y, angle, stack, current[k], offset);
    }
  }
}
