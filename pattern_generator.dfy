/**
 * The pattern generator object: the dispatch on the algorithm kind, the
 * downsampling of a pixel grid to a tile grid, the choice of a tile per
 * tile cell, and the random tiling that avoids repeating a colour next to
 * a horizontal or vertical neighbour.
 *
 * Images are abstract. The image `generate_algorithmic_pattern` returns is the grid of tile
 * identifiers it pastes, cell `(y, x)` standing for the tile pasted at pixel
 * `(x * tileSize, y * tileSize)`. The image `random_pattern` fills is a grid
 * of colours with one cell per tile position, holding the colour of that
 * tile's centre pixel.
 */
module PatternGenerator {
  import opened Wrappers
  import opened Arith
  import opened Tiles
  import Raster
  import DC = DragonCurve
  import SP = Sierpinski
  import LS = LSystem

  // ---------------------------------------------------------------------------
  // Downsampling and tile selection (lines 96-120 of the dispatch)
  // ---------------------------------------------------------------------------

  /** Pixel `(i, j)` lies in the square of tile cell `(y, x)`. */
  predicate InBlock(i: int, j: int, y: int, x: int, ts: int)
  {
    y * ts <= i < (y + 1) * ts && x * ts <= j < (x + 1) * ts
  }

  /** `np.any(pattern[y*ts:(y+1)*ts, x*ts:(x+1)*ts] > 0)`; numpy clips the slice to the grid. */
  predicate BlockHasInk(pattern: array2<int>, y: int, x: int, ts: int)
    reads pattern
  {
    exists i, j :: 0 <= i < pattern.Length0 && 0 <= j < pattern.Length1 && InBlock(i, j, y, x, ts) && pattern[i, j] > 0
  }

  /** Some cell of `m` inside a `height x width` grid lies in the square of tile cell `(y, x)`. */
  ghost predicate BlockHit(m: set<(int, int)>, y: int, x: int, ts: int, height: int, width: int)
  {
    exists i, j :: 0 <= i < height && 0 <= j < width && InBlock(i, j, y, x, ts) && (i, j) in m
  }

  /** A block whose index is below the scaled size lies wholly inside the pixel grid, so no slice is clipped. */
  lemma BlockInside(height: int, width: int, ts: int, y: int, x: int)
    requires 0 < ts && 0 <= y < height / ts && 0 <= x < width / ts
    ensures forall i, j :: InBlock(i, j, y, x, ts) ==> 0 <= i < height && 0 <= j < width
  {
    BlockEnd(y, height, ts);
    BlockEnd(x, width, ts);
  }

  /** The pixels right of or below the last whole tile fall in no block: partial tiles are dropped. */
  lemma RemainderUnread(height: int, width: int, ts: int, i: int, j: int)
    requires 0 < ts && ((height / ts) * ts <= i || (width / ts) * ts <= j)
    ensures forall y, x :: 0 <= y < height / ts && 0 <= x < width / ts ==> !InBlock(i, j, y, x, ts)
  {
    forall y, x | 0 <= y < height / ts && 0 <= x < width / ts
      ensures !InBlock(i, j, y, x, ts)
    {
      MulMonotone(y + 1, height / ts, ts);
      MulMonotone(x + 1, width / ts, ts);
    }
  }

  /** A pixel grid and a set of cells that agree on which pixels are positive have the same inked blocks. */
  lemma InkIsHit(pattern: array2<int>, m: set<(int, int)>, ts: int)
    requires forall i, j :: 0 <= i < pattern.Length0 && 0 <= j < pattern.Length1 ==> (pattern[i, j] > 0 <==> (i, j) in m)
    ensures forall y, x :: BlockHasInk(pattern, y, x, ts) <==> BlockHit(m, y, x, ts, pattern.Length0, pattern.Length1)
  {
    forall y, x
      ensures BlockHasInk(pattern, y, x, ts) <==> BlockHit(m, y, x, ts, pattern.Length0, pattern.Length1)
    {
      if BlockHasInk(pattern, y, x, ts) {
        var i, j :| 0 <= i < pattern.Length0 && 0 <= j < pattern.Length1 && InBlock(i, j, y, x, ts) && pattern[i, j] > 0;
        assert (i, j) in m;
      }
      if BlockHit(m, y, x, ts, pattern.Length0, pattern.Length1) {
        var i, j :| 0 <= i < pattern.Length0 && 0 <= j < pattern.Length1 && InBlock(i, j, y, x, ts) && (i, j) in m;
        assert pattern[i, j] > 0;
      }
    }
  }

  /** With no positive pixel no block is inked; with a positive pixel in a block that block is inked. */
  lemma {:induction false} BlankAndFull(pattern: array2<int>, ts: int, y: int, x: int)
    requires 0 < ts && 0 <= y < pattern.Length0 / ts && 0 <= x < pattern.Length1 / ts
    ensures (forall i, j :: 0 <= i < pattern.Length0 && 0 <= j < pattern.Length1 ==> pattern[i, j] <= 0) ==> !BlockHasInk(pattern, y, x, ts)
    ensures pattern[y * ts, x * ts] > 0 ==> BlockHasInk(pattern, y, x, ts)
  {
    BlockInside(pattern.Length0, pattern.Length1, ts, y, x);
    assert InBlock(y * ts, x * ts, y, x, ts);
  }

  /** `tile_types[value % len(tile_types)]` over `list(TileType)`. */
  function TileFor(value: int): (t: TileType)
    ensures Index(t) == value % |AllTiles|
    ensures value == 0 ==> t == A
    ensures value == 1 ==> t == B
  {
    AllTiles[value % |AllTiles|]
  }

  /** Two scaled values select the same identifier exactly when they agree modulo six. */
  lemma TileForModulo(v: int, w: int)
    ensures TileFor(v) == TileFor(w) <==> v % 6 == w % 6
  {
    AllTilesEnumerates();
  }

  /** Lines 103-111 for one row `y` of the scaled grid: the cell is set to 1 when its block is inked. */
  method DownsampleRow(pattern: array2<int>, scaled: array2<int>, y: int, ts: int)
    requires 0 < ts && scaled != pattern && 0 <= y < scaled.Length0
    modifies scaled
    ensures forall x :: 0 <= x < scaled.Length1 ==> scaled[y, x] == if BlockHasInk(pattern, y, x, ts) then 1 else old(scaled[y, x])
    ensures forall i, x :: 0 <= i < scaled.Length0 && i != y && 0 <= x < scaled.Length1 ==> scaled[i, x] == old(scaled[i, x])
  {
    for x := 0 to scaled.Length1
      invariant forall k :: 0 <= k < x ==> scaled[y, k] == if BlockHasInk(pattern, y, k, ts) then 1 else old(scaled[y, k])
      invariant forall i, k :: 0 <= i < scaled.Length0 && 0 <= k < scaled.Length1 && (i != y || x <= k) ==> scaled[i, k] == old(scaled[i, k])
    {
      if BlockHasInk(pattern, y, x, ts) {
        scaled[y, x] := 1;
      }
    }
  }

  /**
   * Lines 98-111: a zero grid of `(height // ts) x (width // ts)` cells, a cell set
   * to 1 exactly when some pixel of its block is positive.
   */
  method Downsample(pattern: array2<int>, ts: int) returns (scaled: array2<int>)
    requires 0 < ts
    ensures fresh(scaled) && scaled.Length0 == pattern.Length0 / ts && scaled.Length1 == pattern.Length1 / ts
    ensures forall y, x :: 0 <= y < scaled.Length0 && 0 <= x < scaled.Length1 ==>
      scaled[y, x] == if BlockHasInk(pattern, y, x, ts) then 1 else 0
  {
    scaled := new int[pattern.Length0 / ts, pattern.Length1 / ts]((i, j) => 0);
    for y := 0 to scaled.Length0
      invariant forall i, x :: 0 <= i < y && 0 <= x < scaled.Length1 ==> scaled[i, x] == if BlockHasInk(pattern, i, x, ts) then 1 else 0
      invariant forall i, x :: y <= i < scaled.Length0 && 0 <= x < scaled.Length1 ==> scaled[i, x] == 0
    {
      DownsampleRow(pattern, scaled, y, ts);
    }
  }

  /** Lines 114-120: every scaled cell selects its tile identifier. */
  method SelectTiles(scaled: array2<int>) returns (tiles: array2<TileType>)
    ensures fresh(tiles) && tiles.Length0 == scaled.Length0 && tiles.Length1 == scaled.Length1
    ensures forall y, x :: 0 <= y < scaled.Length0 && 0 <= x < scaled.Length1 ==> tiles[y, x] == TileFor(scaled[y, x])
  {
    tiles := new TileType[scaled.Length0, scaled.Length1];
    for y := 0 to scaled.Length0
      invariant forall i, x :: 0 <= i < y && 0 <= x < scaled.Length1 ==> tiles[i, x] == TileFor(scaled[i, x])
    {
      for x := 0 to scaled.Length1
        invariant forall i, k :: 0 <= i < y && 0 <= k < scaled.Length1 ==> tiles[i, k] == TileFor(scaled[i, k])
        invariant forall k :: 0 <= k < x ==> tiles[y, k] == TileFor(scaled[y, k])
      {
        tiles[y, x] := TileFor(scaled[y, x]);
      }
    }
  }

  /** Lines 96-120 for a positive tile size: a tile cell is `B` when its block is inked and `A` otherwise. */
  method TileGrid(pattern: array2<int>, ts: int) returns (tiles: array2<TileType>)
    requires 0 < ts
    ensures fresh(tiles) && tiles.Length0 == pattern.Length0 / ts && tiles.Length1 == pattern.Length1 / ts
    ensures forall y, x :: 0 <= y < tiles.Length0 && 0 <= x < tiles.Length1 ==>
      tiles[y, x] == if BlockHasInk(pattern, y, x, ts) then B else A
  {
    var scaled := Downsample(pattern, ts);
    tiles := SelectTiles(scaled);
  }

  // ---------------------------------------------------------------------------
  // random_pattern (lines 35-73)
  // ---------------------------------------------------------------------------

  /** The exceptions `random_pattern` raises. */
  datatype RandomError =
    | StepIsZero    // `range(0, n, 0)`
    | PixelOutside  // `getpixel` at a tile centre outside the image
    | EmptyChoice   // `random.choice([])`

  /** `len(range(0, n, ts))`: the number of tile positions along a side of `n` pixels. */
  function Span(n: nat, ts: int): nat
    requires 0 < ts
  {
    (n + ts - 1) / ts
  }

  /** Tile position `c` starts inside the side exactly when it is one of the `Span` positions. */
  lemma SpanCovers(n: nat, ts: int, c: int)
    requires 0 < ts
    ensures 0 <= c * ts < n <==> 0 <= c < Span(n, ts)
  {
    var q := Span(n, ts);
    assert q * ts <= n + ts - 1 < q * ts + ts;
    if c < 0 {
      MulMonotone(c, -1, ts);
    } else if c < q {
      MulMonotone(c, q - 1, ts);
      assert (q - 1) * ts == q * ts - ts;
    } else {
      MulMonotone(q, c, ts);
    }
  }

  /**
   * `get_tile_type_at` for the tile position `(col, row)`, that is pixel
   * `(col * ts, row * ts)`: `None` outside the image, the colour at the tile
   * centre otherwise, and the `IndexError` of `getpixel` when that centre lies
   * outside the image.
   */
  function Read(img: array2<Rgb>, width: nat, height: nat, ts: int, col: int, row: int): (r: Result<Option<Rgb>, RandomError>)
    requires 0 < ts && img.Length0 == Span(height, ts) && img.Length1 == Span(width, ts)
    reads img
    ensures r == Ok(None) <==> !(0 <= col * ts < width && 0 <= row * ts < height)
    ensures r.Err? <==> 0 <= col * ts < width && 0 <= row * ts < height && (col * ts + ts / 2 >= width || row * ts + ts / 2 >= height)
    ensures r.Err? ==> r.error == PixelOutside
    ensures r.Ok? && r.value.Some? ==> 0 <= row < img.Length0 && 0 <= col < img.Length1 && r.value.value == img[row, col]
  {
    var x, y := col * ts, row * ts;
    if x < 0 || y < 0 || x >= width || y >= height then Ok(None)
    else if x + ts / 2 >= width || y + ts / 2 >= height then Err(PixelOutside)
    else
      SpanCovers(width, ts, col);
      SpanCovers(height, ts, row);
      Ok(Some(img[row, col]))
  }

  /** When the tile size divides the side, the centre of a tile that starts inside it is inside it too. */
  lemma WholeTileCentre(n: nat, ts: int, c: int)
    requires 0 < ts && n % ts == 0 && 0 <= c * ts < n
    ensures c * ts + ts / 2 < n
  {
    var q := n / ts;
    assert n == q * ts;
    if q <= c {
      MulMonotone(q, c, ts);
    }
    MulMonotone(c + 1, q, ts);
    assert (c + 1) * ts == c * ts + ts;
  }

  /** When the tile size divides both sides, every tile centre is inside the image and no read fails. */
  lemma WholeTilesRead(img: array2<Rgb>, width: nat, height: nat, ts: int, col: int, row: int)
    requires 0 < ts && img.Length0 == Span(height, ts) && img.Length1 == Span(width, ts)
    requires width % ts == 0 && height % ts == 0
    ensures Read(img, width, height, ts, col, row).Ok?
  {
    if 0 <= col * ts < width && 0 <= row * ts < height {
      WholeTileCentre(width, ts, col);
      WholeTileCentre(height, ts, row);
    }
  }

  /** A partial last tile: on a 3 x 1 image with tile size 2 the right neighbour of the first tile cannot be read. */
  lemma PartialTileRead(img: array2<Rgb>)
    requires img.Length0 == Span(1, 2) && img.Length1 == Span(3, 2)
    ensures Read(img, 3, 1, 2, 1, 0) == Err(PixelOutside)
    ensures Read(img, 3, 1, 2, 0, 0) == Err(PixelOutside)
  {
  }

  /** The colours among the neighbour reads that are not `None` (lines 52-55). */
  function Present(ns: seq<Option<Rgb>>): set<Rgb>
  {
    if ns == [] then {}
    else Present(ns[..|ns| - 1]) + if ns[|ns| - 1].Some? then {ns[|ns| - 1].value} else {}
  }

  lemma {:induction false} PresentMembers(ns: seq<Option<Rgb>>, c: Rgb)
    ensures c in Present(ns) <==> Some(c) in ns
  {
    if ns != [] {
      PresentMembers(ns[..|ns| - 1], c);
      assert ns == ns[..|ns| - 1] + [ns[|ns| - 1]];
    }
  }

  /** The tile types, in order, whose colour is not invalid (lines 58-64). */
  function Allowed(types: seq<TileType>, invalid: set<Rgb>): seq<TileType>
  {
    if types == [] then []
    else Allowed(types[..|types| - 1], invalid) + if Color(types[|types| - 1]) in invalid then [] else [types[|types| - 1]]
  }

  lemma {:induction false} AllowedMembers(types: seq<TileType>, invalid: set<Rgb>, t: TileType)
    ensures t in Allowed(types, invalid) <==> t in types && Color(t) !in invalid
  {
    if types != [] {
      AllowedMembers(types[..|types| - 1], invalid, t);
      assert types == types[..|types| - 1] + [types[|types| - 1]];
    }
  }

  /** Four colours leave at least one of the six tile colours free. */
  lemma FreeColour(c1: Rgb, c2: Rgb, c3: Rgb, c4: Rgb) returns (t: TileType)
    ensures Color(t) != c1 && Color(t) != c2 && Color(t) != c3 && Color(t) != c4
  {
    if Color(A) !in {c1, c2, c3, c4} { return A; }
    if Color(B) !in {c1, c2, c3, c4} { return B; }
    if Color(C) !in {c1, c2, c3, c4} { return C; }
    if Color(D) !in {c1, c2, c3, c4} { return D; }
    if Color(E) !in {c1, c2, c3, c4} { return E; }
    return F;
  }

  /** Every tile type is offered. */
  predicate AllTypes(types: seq<TileType>)
  {
    forall t: TileType :: t in types
  }

  /** With every tile type offered, the valid list of four neighbour reads is never empty. */
  lemma AllowedNonEmpty(types: seq<TileType>, ns: seq<Option<Rgb>>)
    requires AllTypes(types) && |ns| == 4
    ensures Allowed(types, Present(ns)) != []
  {
    var pick := (o: Option<Rgb>) => if o.Some? then o.value else Black;
    var t := FreeColour(pick(ns[0]), pick(ns[1]), pick(ns[2]), pick(ns[3]));
    PresentMembers(ns, Color(t));
    AllowedMembers(types, Present(ns), t);
  }

  /** The four neighbour reads of `get_valid_tile_types`, in the order left, right, top, bottom. */
  function Neighbours(img: array2<Rgb>, width: nat, height: nat, ts: int, col: int, row: int): seq<Result<Option<Rgb>, RandomError>>
    requires 0 < ts && img.Length0 == Span(height, ts) && img.Length1 == Span(width, ts)
    reads img
  {
    [Read(img, width, height, ts, col - 1, row), Read(img, width, height, ts, col + 1, row),
     Read(img, width, height, ts, col, row - 1), Read(img, width, height, ts, col, row + 1)]
  }

  /** `get_valid_tile_types`: the first failing read raises, otherwise the types not coloured like a neighbour. */
  function ValidSpec(img: array2<Rgb>, width: nat, height: nat, ts: int, col: int, row: int, types: seq<TileType>): Result<seq<TileType>, RandomError>
    requires 0 < ts && img.Length0 == Span(height, ts) && img.Length1 == Span(width, ts)
    reads img
  {
    var rs := Neighbours(img, width, height, ts, col, row);
    if rs[0].Err? || rs[1].Err? || rs[2].Err? || rs[3].Err? then Err(PixelOutside)
    else Ok(Allowed(types, Present([rs[0].value, rs[1].value, rs[2].value, rs[3].value])))
  }

  /** When the tile size divides both sides, `get_valid_tile_types` never raises. */
  lemma WholeTilesValid(img: array2<Rgb>, width: nat, height: nat, ts: int, col: int, row: int, types: seq<TileType>)
    requires 0 < ts && img.Length0 == Span(height, ts) && img.Length1 == Span(width, ts)
    requires width % ts == 0 && height % ts == 0
    ensures ValidSpec(img, width, height, ts, col, row, types).Ok?
  {
    WholeTilesRead(img, width, height, ts, col - 1, row);
    WholeTilesRead(img, width, height, ts, col + 1, row);
    WholeTilesRead(img, width, height, ts, col, row - 1);
    WholeTilesRead(img, width, height, ts, col, row + 1);
  }

  /** Cell `(i, j)` comes before tile position `(row, col)` in the row-major order of the loops. */
  predicate Done(i: int, j: int, row: int, col: int)
  {
    i < row || (i == row && j < col)
  }

  /** A colour is the colour of one of the offered types. */
  predicate Painted(c: Rgb, types: seq<TileType>)
  {
    exists t :: t in types && Color(t) == c
  }

  /** Every cell placed before `(row, col)` holds the colour of an offered type. */
  ghost predicate Chosen(img: array2<Rgb>, types: seq<TileType>, row: int, col: int)
    reads img
  {
    forall i, j :: 0 <= i < img.Length0 && 0 <= j < img.Length1 && Done(i, j, row, col) ==> Painted(img[i, j], types)
  }

  /** No two horizontally or vertically adjacent cells placed before `(row, col)` share a colour. */
  ghost predicate Separated(img: array2<Rgb>, row: int, col: int)
    reads img
  {
    && (forall i, j :: 0 <= i < img.Length0 && 0 <= j && j + 1 < img.Length1 && Done(i, j + 1, row, col) ==> img[i, j] != img[i, j + 1])
    && (forall i, j :: 0 <= i && i + 1 < img.Length0 && 0 <= j < img.Length1 && Done(i + 1, j, row, col) ==> img[i, j] != img[i + 1, j])
  }

  /** Same tiles as their orthogonal neighbours occur nowhere in the grid. */
  ghost predicate NoEqualNeighbours(img: array2<Rgb>)
    reads img
  {
    && (forall i, j :: 0 <= i < img.Length0 && 0 <= j && j + 1 < img.Length1 ==> img[i, j] != img[i, j + 1])
    && (forall i, j :: 0 <= i && i + 1 < img.Length0 && 0 <= j < img.Length1 ==> img[i, j] != img[i + 1, j])
  }

  // ---------------------------------------------------------------------------
  // Dispatch
  // ---------------------------------------------------------------------------

  /**
   * The argument of `generate_algorithmic_pattern`: a member of `AlgorithmType`, or
   * `Foreign`, a value equal to none of them (such as `BLANKET` of the algorithms
   * package's own enumeration).
   */
  datatype Request = Known(kind: AlgorithmType) | Foreign

  /** The exceptions the dispatch raises. */
  datatype PatternError =
    | SineWaveArity       // `generate_sine_wave` takes two arguments and is called with three
    | ZeroTileSize        // `height // 0`
    | NegativeDimensions  // `np.zeros` of a negative shape

  /** The request reaches one of the five generator branches. */
  predicate Generates(request: Request)
  {
    request.Known? && request.kind != SineWave
  }

  /** The walker `generate_dragon_curve` starts with. */
  function DragonStart(width: nat, height: nat, stepSize: real): DC.Walker
  {
    DC.Walker(Raster.Point((width / 3) as real, (height / 2) as real), DC.Vec(stepSize, 0.0))
  }

  /** The positive cells of a grid. */
  ghost function Positive(pattern: array2<int>): set<(int, int)>
    reads pattern
  {
    set i, j | 0 <= i < pattern.Length0 && 0 <= j < pattern.Length1 && pattern[i, j] > 0 :: (i, j)
  }

  /**
   * The cells each generator sets to 1 at its default parameters (12 folds, depth 8,
   * 5 generations). The Fibonacci and Voronoi grids are taken as given.
   */
  ghost function Ink(kind: AlgorithmType, width: nat, height: nat, external: array2<int>, stepSize: real,
                     offset: int -> (real, real)): set<(int, int)>
    reads external
  {
    match kind
    case Fibonacci => Positive(external)
    case Voronoi => Positive(external)
    case Dragon => DC.MarksAt(DragonStart(width, height, stepSize), DC.DragonPoints(12), |DC.DragonPoints(12)|, width, height)
    case Sierpinski => SP.TriangleMarks(SP.Initial(width, height), 8, width, height)
    case LSystem => LS.RunMarks(LS.Generation(5), LS.Start(width, height), width, height, offset)
    case SineWave => {}
  }

  /** Painting position `(row, col)` with an offered colour extends the placed region by one cell. */
  lemma ChosenExtend(img: array2<Rgb>, types: seq<TileType>, row: int, col: int)
    requires 0 <= row < img.Length0 && 0 <= col < img.Length1
    requires Chosen(img, types, row, col) && Painted(img[row, col], types)
    ensures Chosen(img, types, row, col + 1)
  {
  }

  /** A cell differing from its left and upper neighbours extends the separated region by one cell. */
  lemma SeparatedExtend(img: array2<Rgb>, row: int, col: int)
    requires 0 <= row < img.Length0 && 0 <= col < img.Length1 && Separated(img, row, col)
    requires 0 < col ==> img[row, col - 1] != img[row, col]
    requires 0 < row ==> img[row - 1, col] != img[row, col]
    ensures Separated(img, row, col + 1)
  {
  }

  class PatternGenerator {
    var width: nat
    var height: nat
    var tileSize: int
    var tileGenerator: TileGenerator

    /** The constructor: the tile factory gets the same tile size, unvalidated. */
    constructor (width: nat, height: nat, tileSize: int := 1)
      ensures this.width == width && this.height == height && this.tileSize == tileSize
      ensures fresh(tileGenerator) && tileGenerator.tileSize == tileSize
    {
      this.width := width;
      this.height := height;
      this.tileSize := tileSize;
      tileGenerator := new TileGenerator(tileSize);
    }

    /** The image shape `random_pattern` works on: one colour cell per tile position. */
    ghost predicate Shaped(img: array2<Rgb>)
      reads this, tileGenerator
    {
      0 < tileSize && tileGenerator.tileSize == tileSize
      && img.Length0 == Span(height, tileSize) && img.Length1 == Span(width, tileSize)
    }

    /**
     * `get_valid_tile_types` for tile position `(col, row)`: the four neighbour
     * reads, the set of their colours, then the offered types whose tile centre
     * colour is not in it.
     */
    method ValidTileTypes(img: array2<Rgb>, col: int, row: int, types: seq<TileType>)
      returns (r: Result<seq<TileType>, RandomError>)
      requires Shaped(img)
      ensures r == ValidSpec(img, width, height, tileSize, col, row, types)
    {
      var left := Read(img, width, height, tileSize, col - 1, row);
      var right := Read(img, width, height, tileSize, col + 1, row);
      var top := Read(img, width, height, tileSize, col, row - 1);
      var bottom := Read(img, width, height, tileSize, col, row + 1);
      if left.Err? || right.Err? || top.Err? || bottom.Err? {
        return Err(PixelOutside);
      }
      var ns := [left.value, right.value, top.value, bottom.value];
      var invalid: set<Rgb> := {};
      for i := 0 to |ns|
        invariant invalid == Present(ns[..i])
      {
        assert ns[..i + 1][..i] == ns[..i];
        if ns[i].Some? {
          invalid := invalid + {ns[i].value};
        }
      }
      assert ns[..|ns|] == ns;
      var valid: seq<TileType> := [];
      for i := 0 to |types|
        invariant valid == Allowed(types[..i], invalid)
      {
        assert types[..i + 1][..i] == types[..i];
        var tile := tileGenerator.CreateTile(types[i]);
        if tile.color !in invalid {
          valid := valid + [types[i]];
        }
      }
      assert types[..|types|] == types;
      r := Ok(valid);
    }

    /**
     * Lines 68-72 for tile position `(col, row)`: the valid types, or every offered
     * type when none is valid, and the colour of a tile chosen among them. The
     * colour is offered, and it avoids every neighbour colour whenever the valid
     * list is non-empty, which it always is when every type is offered.
     */
    method PickColour(img: array2<Rgb>, types: seq<TileType>, row: int, col: int) returns (r: Result<Rgb, RandomError>)
      requires Shaped(img) && 0 <= row < img.Length0 && 0 <= col < img.Length1
      ensures r.Ok? ==> Painted(r.value, types)
      ensures r.Ok? && ValidSpec(img, width, height, tileSize, col, row, types) != Ok([]) ==>
        var rs := Neighbours(img, width, height, tileSize, col, row);
        forall k :: 0 <= k < 4 ==> rs[k] != Ok(Some(r.value))
      ensures r.Ok? && AllTypes(types) ==>
        (0 < col ==> img[row, col - 1] != r.value) && (0 < row ==> img[row - 1, col] != r.value)
      ensures r.Err? ==>
        || (r == Err(PixelOutside) && (width % tileSize != 0 || height % tileSize != 0))
        || (r == Err(EmptyChoice) && types == [])
      ensures width % tileSize == 0 && height % tileSize == 0 && types != [] ==> r.Ok?
    {
      ghost var rs := Neighbours(img, width, height, tileSize, col, row);
      var found := ValidTileTypes(img, col, row, types);
      if found.Err? {
        if width % tileSize == 0 && height % tileSize == 0 {
          WholeTilesValid(img, width, height, tileSize, col, row, types);
        }
        return Err(PixelOutside);
      }
      ghost var ns := [rs[0].value, rs[1].value, rs[2].value, rs[3].value];
      var valid := found.value;
      if AllTypes(types) {
        AllowedNonEmpty(types, ns);
      }
      if valid == [] {
        valid := types;
      }
      if valid == [] {
        return Err(EmptyChoice);
      }
      assert valid[0] in valid;
      var t :| t in valid;
      AllowedMembers(types, Present(ns), t);
      if found.value != [] {
        PresentMembers(ns, Color(t));
      }
      var tile := tileGenerator.CreateTile(t);
      if 0 < col {
        SpanCovers(width, tileSize, col - 1);
        SpanCovers(height, tileSize, row);
        assert rs[0] == Ok(Some(img[row, col - 1]));
      }
      if 0 < row {
        SpanCovers(width, tileSize, col);
        SpanCovers(height, tileSize, row - 1);
        assert rs[2] == Ok(Some(img[row - 1, col]));
      }
      r := Ok(tile.color);
    }

    /** One iteration of the inner loop of `random_pattern` (lines 68-73): the chosen tile is pasted. */
    method PlaceAt(img: array2<Rgb>, types: seq<TileType>, row: int, col: int) returns (r: Result<(), RandomError>)
      requires Shaped(img) && 0 <= row < img.Length0 && 0 <= col < img.Length1
      requires Chosen(img, types, row, col) && (AllTypes(types) ==> Separated(img, row, col))
      modifies img
      ensures forall i, j :: 0 <= i < img.Length0 && 0 <= j < img.Length1 && (i != row || j != col) ==> img[i, j] == old(img[i, j])
      ensures r.Ok? ==> Chosen(img, types, row, col + 1) && (AllTypes(types) ==> Separated(img, row, col + 1))
      ensures r.Ok? && old(ValidSpec(img, width, height, tileSize, col, row, types)) != Ok([]) ==>
        var rs := old(Neighbours(img, width, height, tileSize, col, row));
        forall k :: 0 <= k < 4 ==> rs[k] != Ok(Some(img[row, col]))
      ensures r.Err? ==>
        || (r == Err(PixelOutside) && (width % tileSize != 0 || height % tileSize != 0))
        || (r == Err(EmptyChoice) && types == [])
      ensures width % tileSize == 0 && height % tileSize == 0 && types != [] ==> r.Ok?
    {
      var c := PickColour(img, types, row, col);
      if c.Err? {
        return Err(c.error);
      }
      img[row, col] := c.value;
      assert Chosen(img, types, row, col);
      ChosenExtend(img, types, row, col);
      if AllTypes(types) {
        assert Separated(img, row, col);
        SeparatedExtend(img, row, col);
      }
      r := Ok(());
    }

    /** The inner loop of `random_pattern` over one row of tile positions. */
    method RandomRow(img: array2<Rgb>, types: seq<TileType>, row: int) returns (r: Result<(), RandomError>)
      requires Shaped(img) && 0 <= row < img.Length0
      requires Chosen(img, types, row, 0) && (AllTypes(types) ==> Separated(img, row, 0))
      modifies img
      ensures forall i, j :: 0 <= i < img.Length0 && 0 <= j < img.Length1 && i != row ==> img[i, j] == old(img[i, j])
      ensures r.Ok? ==> Chosen(img, types, row + 1, 0) && (AllTypes(types) ==> Separated(img, row + 1, 0))
      ensures r.Err? ==>
        || (r == Err(PixelOutside) && (width % tileSize != 0 || height % tileSize != 0))
        || (r == Err(EmptyChoice) && types == [])
      ensures width % tileSize == 0 && height % tileSize == 0 && types != [] ==> r.Ok?
    {
      for col := 0 to img.Length1
        invariant forall i, j :: 0 <= i < img.Length0 && 0 <= j < img.Length1 && (i != row || col <= j) ==> img[i, j] == old(img[i, j])
        invariant Chosen(img, types, row, col) && (AllTypes(types) ==> Separated(img, row, col))
      {
        r := PlaceAt(img, types, row, col);
        if r.Err? {
          return;
        }
      }
      r := Ok(());
    }

    /**
     * `random_pattern`: every tile position, row by row, gets a tile chosen by
     * `random.choice` (any member of the list) among those whose colour no
     * neighbour has. A neighbour not yet placed is read from `img` as it was
     * given. When every type is offered, the finished grid has no two
     * horizontally or vertically adjacent tiles of the same colour.
     */
    method RandomPattern(img: array2<Rgb>, types: seq<TileType>) returns (r: Result<(), RandomError>)
      requires tileGenerator.tileSize == tileSize
      requires 0 < tileSize ==> img.Length0 == Span(height, tileSize) && img.Length1 == Span(width, tileSize)
      modifies img
      ensures tileSize == 0 ==> r == Err(StepIsZero) && unchanged(img)
      ensures tileSize < 0 ==> r == Ok(()) && unchanged(img)
      ensures 0 < tileSize && r.Ok? ==>
        forall i, j :: 0 <= i < img.Length0 && 0 <= j < img.Length1 ==> Painted(img[i, j], types)
      ensures 0 < tileSize && r.Ok? && AllTypes(types) ==> NoEqualNeighbours(img)
      ensures 0 < tileSize && r.Err? ==>
        || (r == Err(PixelOutside) && (width % tileSize != 0 || height % tileSize != 0))
        || (r == Err(EmptyChoice) && types == [])
      ensures 0 < tileSize && width % tileSize == 0 && height % tileSize == 0 && types != [] ==> r.Ok?
    {
      if tileSize == 0 {
        return Err(StepIsZero);
      }
      if tileSize < 0 {
        return Ok(());
      }
      for row := 0 to img.Length0
        invariant forall i, j :: 0 <= i < img.Length0 && 0 <= j < img.Length1 && row <= i ==> img[i, j] == old(img[i, j])
        invariant Chosen(img, types, row, 0) && (AllTypes(types) ==> Separated(img, row, 0))
      {
        r := RandomRow(img, types, row);
        if r.Err? {
          return;
        }
      }
      r := Ok(());
    }

    /**
     * `generate_algorithmic_pattern`. `external` is the grid the Fibonacci or Voronoi
     * generator returns, `stepSize` the dragon curve's float step and `offset` the
     * L-system's trigonometry. On success the result is the grid of pasted tiles:
     * `B` on a tile cell whose block the generator inked, `A` elsewhere. `Ok(None)`
     * is the black image without tiles.
     */
    method GenerateAlgorithmicPattern(request: Request, external: array2<int>, stepSize: real, offset: int -> (real, real))
      returns (r: Result<Option<array2<TileType>>, PatternError>)
      requires request == Known(Fibonacci) || request == Known(Voronoi) ==> external.Length0 == height && external.Length1 == width
      ensures request == Known(SineWave) ==> r == Err(SineWaveArity)
      ensures request == Foreign ==> r == Ok(None)
      ensures Generates(request) && tileSize == 0 ==> r == Err(ZeroTileSize)
      ensures Generates(request) && tileSize < 0 ==>
        if 0 < width || 0 < height then r == Err(NegativeDimensions)
        else r.Ok? && r.value.Some? && r.value.value.Length0 == 0 && r.value.value.Length1 == 0
      ensures Generates(request) && 0 < tileSize ==>
        && r.Ok? && r.value.Some? && fresh(r.value.value)
        && r.value.value.Length0 == height / tileSize && r.value.value.Length1 == width / tileSize
        && forall y, x :: 0 <= y < height / tileSize && 0 <= x < width / tileSize ==>
             r.value.value[y, x] == if BlockHit(Ink(request.kind, width, height, external, stepSize, offset), y, x, tileSize, height, width) then B else A
    {
      if request == Foreign {
        return Ok(None);
      }
      var kind := request.kind;
      if kind == SineWave {
        return Err(SineWaveArity);
      }
      ghost var ink := Ink(kind, width, height, external, stepSize, offset);
      var pattern: array2<int>;
      if kind == Fibonacci || kind == Voronoi {
        pattern := external;
      } else if kind == Dragon {
        pattern := DC.GenerateDragonCurve(width, height, stepSize);
      } else if kind == Sierpinski {
        pattern := SP.GenerateSierpinski(width, height);
      } else {
        pattern := LS.GenerateLSystem(width, height, offset);
      }
      assert pattern.Length0 == height && pattern.Length1 == width;
      assert forall i, j :: 0 <= i < height && 0 <= j < width ==> (pattern[i, j] > 0 <==> (i, j) in ink);
      InkIsHit(pattern, ink, tileSize);
      if tileSize == 0 {
        return Err(ZeroTileSize);
      }
      if tileSize < 0 {
        if 0 < width || 0 < height {
          return Err(NegativeDimensions);
        }
        var empty := new TileType[0, 0];
        return Ok(Some(empty));
      }
      var tiles := TileGrid(pattern, tileSize);
      r := Ok(Some(tiles));
    }
  }
}
