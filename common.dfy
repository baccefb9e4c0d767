/** Failure-carrying values: a Python exception becomes an `Err`, a Python `None` a `None`. */
module Wrappers {
  datatype Option<T> = None | Some(value: T)

  datatype Result<T, E> = Ok(value: T) | Err(error: E)
}

/** Integer helpers used by several generators. */
module Arith {
  function Pow(b: nat, n: nat): nat
  {
    if n == 0 then 1 else b * Pow(b, n - 1)
  }

  lemma MulMonotone(a: int, b: int, c: int)
    requires a <= b && 0 <= c
    ensures a * c <= b * c
  {
  }

  lemma ModBelow(x: int, n: int)
    requires 0 <= x < n
    ensures x % n == x
  {
  }

  /** Adding the modulus does not change the remainder. */
  lemma ModShift(x: int, n: int)
    requires 0 <= x && 0 < n
    ensures (x + n) % n == x % n
  {
    var a := (x + n) / n - (x / n + 1);
    assert a * n == x % n - (x + n) % n;
    if a >= 1 {
      MulMonotone(1, a, n);
    } else if a <= -1 {
      MulMonotone(a, -1, n);
    }
  }

  /** A tile-sized block whose index is below `n / ts` ends inside `[0, n)`. */
  lemma BlockEnd(k: int, n: int, ts: int)
    requires 0 < ts && 0 <= k && k < n / ts
    ensures 0 <= k * ts && (k + 1) * ts <= n
  {
    MulMonotone(0, k, ts);
    MulMonotone(k + 1, n / ts, ts);
  }
}

/** Pixel coordinates: real-valued positions behind an in-bounds guard, and Python's `int()`. */
module Raster {
  /** A position in pixel space (a Python float pair, here an exact real pair). */
  datatype Point = Point(x: real, y: real)

  /** The generators' guard `0 <= x < width and 0 <= y < height`. */
  predicate InBounds(p: Point, width: int, height: int)
  {
    0.0 <= p.x < width as real && 0.0 <= p.y < height as real
  }

  /** Python `int()` on a float: truncation toward zero. */
  function Trunc(v: real): (r: int)
    ensures 0.0 <= v ==> 0 <= r && r as real <= v < r as real + 1.0
    ensures v < 0.0 ==> r <= 0 && v <= r as real < v + 1.0
  {
    if v >= 0.0 then v.Floor else -((-v).Floor)
  }

  /** The numpy index `pattern[int(y), int(x)]` written for a point, as (row, column). */
  function PixelOf(p: Point): (int, int)
  {
    (Trunc(p.y), Trunc(p.x))
  }

  /** A point that passes the guard is written inside a `height x width` grid. */
  lemma InBoundsPixel(p: Point, width: int, height: int)
    requires InBounds(p, width, height)
    ensures 0 <= PixelOf(p).0 < height && 0 <= PixelOf(p).1 < width
  {
  }
}
