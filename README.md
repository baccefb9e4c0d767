# py-peittogen pattern layer in Dafny

This project models the pattern-generation layer of py-peittogen and proves properties of the model. The layer turns a geometric or recursive algorithm into a grid of tiles. It covers:

- **Tiles** (`tiles.dfy`): the six tile identifiers `A`–`F`, their solid colours, the list of algorithm kinds, and the tile factory whose tile size is checked when it is assigned.
- **Recursive quilt engine** (`quilt_engine.dfy`, from `algorithms/blanket.py`). A template is a cyclic list of row patterns. Each row cycles its pattern's tiles. After each row, a small state machine either moves to the next template entry or derives a "related" row from the tiles the current row does not use. The value-level functions (`Row`, `State`, `NextState`, `AllRows`, `Blanket`) are the specification. The class `QuiltRow` and the recursive method `GenerateAllRows` are proved against them.
- **Loop quilt engine** (`blanket_patterns.dfy`, from `patterns/blanket.py`). It is the same state machine, written as a nested loop that updates its variables in place. It is proved to fill the grid exactly as the recursive engine's specification does.
- **Dragon curve** (`dragon.dfy`): the folding turn sequence, the quarter-turn rotation, and the walk that marks in-bounds positions.
- **L-system** (`lsystem.dfy`, from `algorithms/lsystem.py`): the rewriting `F -> F[+F]F[-F]F`, and a turtle with a stack that draws ten samples per segment.
- **Sierpinski triangle** (`sierpinski.dfy`): recursive midpoint subdivision, which marks the vertices of the depth-zero triangles.
- **Pattern generator** (`pattern_generator.dfy`, from `pattern_generator.py`). It covers:
  - the dispatch on the algorithm kind;
  - downsampling a pixel grid to a tile grid (a tile is inked if any pixel of its block is positive);
  - choosing tile `A` or `B` per cell;
  - `random_pattern`, which, when all six tile types are offered, never gives a tile the colour of a horizontal or vertical neighbour. With fewer types the valid list can be empty; the fallback then offers every given type again, so two neighbours can share a colour.

Shared helpers live in `common.dfy`:

- `Wrappers`: `Option` and `Result`. Python exceptions become `None` or `Err`.
- `Arith`: powers and some multiplication facts.
- `Raster`: real-valued points, the generators' in-bounds guard, and Python's truncating `int()`.

Images are abstract:

- The output of `generate_algorithmic_pattern` is the grid of tile identifiers it pastes. Cell `(y, x)` is the tile pasted at pixel `(x * tile_size, y * tile_size)`.
- The image `random_pattern` fills is a grid of colours with one cell per tile position. Each cell holds the colour at that tile's centre pixel.
- The generators' pixel grids are `array2<int>` values of 0 and 1.
- Floats are exact reals.
- The trigonometric L-system step and the dragon-curve step length are parameters: `offset` and `stepSize`.
- `random.choice` is either a caller-supplied index (template choice) or Dafny's nondeterministic `:|` (tile choice). Every proved property therefore holds for every possible choice.

Behaviours of the code worth knowing:

- After `n` folds the dragon curve has `2^(n+1) - 1` turns (`DragonCurve.DragonLength`).
- The shipped quilt template gives the fourth row `[E, E, E]`.
- A depth-zero Sierpinski call marks at most three distinct cells, fewer when two vertices truncate to the same cell or a vertex lies outside the grid (`Sierpinski.VertexMarksBounded`).
- An algorithm kind that matches no branch gives a black image without tiles (`Ok(None)`), with no error.
- `tiles.py`'s `AlgorithmType` has six kinds and no `BLANKET`. A `BLANKET` value from the algorithms package's own enumeration matches no branch, so it takes the path above.

Two behaviours of the code look unintended. Both are modelled as written and proved:

- A deriving quilt entry with span `k >= 2` governs only `k / 2 + 1` rows (`QuiltEngine.RelatedSpan`). With the shipped span `k = 2` this equals `k`.
- In `random_pattern`, a neighbour read of a tile that starts inside the image but whose centre pixel `x + tile_size // 2` or `y + tile_size // 2` lies outside it makes `getpixel` raise `IndexError`. This needs a partial tile at the right or bottom edge that is at most `tile_size // 2` pixels wide or high. For example, width 7 with tile size 4 reads fine (the centre of the tile at `x = 4` is 6), while width 3 with tile size 2 fails (`PatternGenerator.Read`, `PatternGenerator.PartialTileRead`).

## Model

| member | source | states |
|---|---|---|
| Tiles.Index | tiles.py:6-12 | every identifier has a position in declaration order, and the list holds it there |
| Tiles.AllTilesEnumerates | tiles.py:6-12 | `list(TileType)` lists all six identifiers once each, in declaration order, and `Index` inverts it |
| Tiles.Color | tiles.py:26-33 | every colour channel lies in `0..255` |
| Tiles.ColorInjective | tiles.py:26-33 | no two identifiers share a colour |
| Tiles.BlackIsA | tiles.py:27 | a new image is black, which is the colour of `A` and of no other identifier |
| Tiles.TileGenerator.SetTileSize | tiles.py:42-46 | a size `<= 0` is refused with an error and leaves the size unchanged; a positive size is stored |
| Tiles.TileGenerator.constructor | tiles.py:35-40 | the size is stored without validation, and defaults to 32 |
| Tiles.TileGenerator.CreateTile | tiles.py:48-51 | the tile has the current size, its colour names exactly the requested identifier, and it is black exactly for `A` |
| QuiltEngine.UnusedMembers | algorithms/blanket.py:27-28 | an identifier is unused exactly when the previous row does not contain it |
| QuiltEngine.UnusedAscending | algorithms/blanket.py:27-28 | the unused identifiers come in declaration order |
| QuiltEngine.Take | algorithms/blanket.py:29 | the slice `s[:n]` is the prefix of length `min(n, len(s))` |
| QuiltEngine.RelatedRowShape | algorithms/blanket.py:24-29 | the derived row avoids every tile of the previous row, is in declaration order, is as long as the previous row unless fewer identifiers are unused, keeps `repeat` and spans one plain row |
| QuiltEngine.RelatedRowTakesFirst | algorithms/blanket.py:28-29 | an unused identifier is left out only when the row is full, and then it comes after every chosen one |
| QuiltEngine.QuiltRowTiles | algorithms/blanket.py:31-33 | a row has `segments_x` cells, each cell is a tile of the cycle, and the first cells are the cycle itself |
| QuiltEngine.QuiltRowCell | algorithms/blanket.py:33 | cell `x` shows tile `x mod len(tiles)` |
| QuiltEngine.QuiltRowPeriodic | algorithms/blanket.py:33 | a row repeats with period `len(tiles)` |
| QuiltEngine.NextState | algorithms/blanket.py:35-55 | the next pattern index stays a valid index into the template |
| QuiltEngine.NextStateAdvances | algorithms/blanket.py:42-55 | each transition either stays on the same entry with one more row counted, or moves cyclically to the next entry with the counter reset |
| QuiltEngine.NextStateMoves | algorithms/blanket.py:46-49 | once the span is used up, the next entry takes over with the counter at 0 |
| QuiltEngine.AllRows | algorithms/blanket.py:64-79 | on success the recursion emits `segments_y - row` rows of `segments_x` cells |
| QuiltEngine.StepsShift | algorithms/blanket.py:75-79 | recursing from the next state equals taking one more transition |
| QuiltEngine.AllRowsSucceeds | algorithms/blanket.py:70-79 | the recursion fails (ZeroDivisionError) exactly when one of the remaining row fills has an empty cycle |
| QuiltEngine.AllRowsByState | algorithms/blanket.py:64-79 | on success, each remaining row is the fill of the state reached after that many transitions |
| QuiltEngine.BlanketByRow | algorithms/blanket.py:57-82 | row `k` of the blanket is the fill of the state in force at row `k`, and generation succeeds exactly when no such fill raises |
| QuiltEngine.NextStateReachable | algorithms/blanket.py:42-55 | transitions keep the invariant: the index is valid, a reset counter sits on a template entry, and a derived row belongs to a deriving entry with its remaining span recorded |
| QuiltEngine.StateAtReachable | algorithms/blanket.py:64-81 | every state the generation reaches satisfies that invariant |
| QuiltEngine.NextStateFillable | algorithms/blanket.py:42-55 | with a well-formed template, transitions keep the current cycle non-empty |
| QuiltEngine.StateAtFillable | algorithms/blanket.py:64-81 | with a well-formed template, every reached state has a non-empty cycle |
| QuiltEngine.WellFormedSucceeds | algorithms/blanket.py:57-82 | a template whose entries all have tiles, and whose deriving entries leave some identifier unused, never makes generation raise |
| QuiltEngine.ExhaustedDerivationRaises | algorithms/blanket.py:28-33 | a deriving entry that uses all six identifiers derives an empty row, and the next fill raises |
| QuiltEngine.PlainSpan | algorithms/blanket.py:42-49 | a non-deriving entry governs `rows` consecutive rows, at least one |
| QuiltEngine.PlainSpanEnd | algorithms/blanket.py:46-49 | after that span the next entry takes over |
| QuiltEngine.RelatedSpan | algorithms/blanket.py:50-53 | a deriving entry with span `k >= 2` keeps emitting derived rows while the counter is at most `k / 2`, each recording the remaining span |
| QuiltEngine.RelatedSpanEnd | algorithms/blanket.py:46-53 | after `k / 2 + 1` rows the deriving entry hands over to the next entry |
| QuiltEngine.UnusedAB | algorithms/blanket.py:27-28 | a row of `A` and `B` leaves `C, D, E, F` unused |
| QuiltEngine.ShippedRowFills | algorithms/blanket.py:31-33 | the shipped rows on a 3-wide grid are `[A,B,A]`, `[C,D,C]`, `[C,D,E]` and `[E,E,E]` |
| QuiltEngine.ShippedDerivation | algorithms/blanket.py:17-29 | the first shipped entry derives the row `[C, D]` |
| QuiltEngine.ShippedBlanket | algorithms/blanket.py:14-82 | the shipped template on the default 3 x 4 grid gives `[[A,B,A],[C,D,C],[C,D,E],[E,E,E]]` |
| QuiltEngine.Prepend | algorithms/blanket.py:70-73 | filled rows come before the rows the recursion still produces, and failure is kept |
| QuiltEngine.AllRowsPrepend | algorithms/blanket.py:73-79 | filling one more row moves it from the recursion's share into the filled rows |
| QuiltEngine.QuiltRow.constructor | algorithms/blanket.py:6-11 | the object's value holds the four arguments, with the source's defaults |
| QuiltEngine.Values | algorithms/blanket.py:14-20 | the value list has the objects' values in order |
| QuiltEngine.BlanketQuilts | algorithms/blanket.py:14-22 | one template, equal as values to the shipped template, made of fresh objects |
| QuiltEngine.GetRelatedQuiltRow | algorithms/blanket.py:24-29 | a fresh object holding the derived row |
| QuiltEngine.GetNextPatternState | algorithms/blanket.py:35-55 | the new `(pattern, index, counter)` is `NextState` of the old one, and no existing object is modified |
| QuiltEngine.FillRow | algorithms/blanket.py:73 | the row becomes the given line and every other row is kept |
| QuiltEngine.GenerateAllRows | algorithms/blanket.py:64-79 | the rows from `row` on are those of `AllRows`, `ok` is false exactly when it fails, and earlier rows are kept |
| QuiltEngine.GenerateBlanket | algorithms/blanket.py:57-82 | an empty template fails; otherwise it succeeds exactly when `Blanket` does, and then the grid holds its rows |
| BlanketPatterns.RowPattern.constructor | patterns/blanket.py:6-11 | the object's value holds the four arguments, with the source's defaults |
| BlanketPatterns.PatternValues | patterns/blanket.py:15-23 | the value list has the objects' values in order |
| BlanketPatterns.ShippedPatterns | patterns/blanket.py:15-23 | one template, equal as values to the recursive engine's shipped template |
| BlanketPatterns.GetRelatedPattern | patterns/blanket.py:25-30 | a fresh object holding the same derived row as the recursive engine |
| BlanketPatterns.FillRow | patterns/blanket.py:57-59 | row `sy` becomes the cyclic fill of the tiles and every other row is kept |
| BlanketPatterns.Transition | patterns/blanket.py:61-70 | the updated `(pattern, index, counter)` is the recursive engine's `NextState` |
| BlanketPatterns.FillBlanket | patterns/blanket.py:51-70 | the loop fills exactly the rows `Blanket` specifies, and `ok` is false exactly when `Blanket` fails |
| BlanketPatterns.GenerateBlanket | patterns/blanket.py:32-72 | the loop engine fills the grid exactly as the recursive engine's specification `Blanket` does on every template, and no template object changes |
| DragonCurve.Mirror | patterns/dragon_curve.py:10 | `[-x for x in turns][::-1]` has the same length, and entry `i` is minus entry `len-1-i` |
| DragonCurve.DragonTurns | patterns/dragon_curve.py:7-11 | the loop computes `DragonPoints(n)` |
| DragonCurve.DragonLength | patterns/dragon_curve.py:7-11 | `n` folds give `2^(n+1) - 1` turns |
| DragonCurve.DragonEntries | patterns/dragon_curve.py:8-10 | every turn is `1` or `-1` |
| DragonCurve.DragonPrefix | patterns/dragon_curve.py:10 | one more fold keeps the earlier turns as a prefix and follows them with `1` |
| DragonCurve.DragonFold | patterns/dragon_curve.py:10 | the second half of the next sequence is the current one reversed with flipped signs |
| DragonCurve.Turn | patterns/dragon_curve.py:19-22 | a quarter turn: the step keeps its length, becomes perpendicular to the old step, and turns to the positive side for `1` and to the negative side otherwise |
| DragonCurve.TurnsCancel | patterns/dragon_curve.py:19-22 | a left turn and a right turn cancel |
| DragonCurve.FourTurns | patterns/dragon_curve.py:19-22 | four equal turns restore the step vector |
| DragonCurve.AxisOneNonzero | patterns/dragon_curve.py:15 | with a positive step, an axis vector has exactly one non-zero component |
| DragonCurve.WalkAxis | patterns/dragon_curve.py:15-23 | the step vector stays on an axis with its length for the whole walk |
| DragonCurve.MarksBounded | patterns/dragon_curve.py:24-25 | every marked cell is inside the grid, and there are at most as many as turns taken |
| DragonCurve.MarksExactly | patterns/dragon_curve.py:18-25 | a cell is marked exactly when some position reached after a turn is in bounds and truncates to it |
| DragonCurve.WalkStep | patterns/dragon_curve.py:19-25 | one iteration rotates, moves, and sets the cell under an in-bounds position |
| DragonCurve.Walk | patterns/dragon_curve.py:18-25 | the walk sets exactly the marked cells to 1 and leaves the rest alone |
| DragonCurve.GenerateDragonCurve | patterns/dragon_curve.py:3-27 | a `height x width` grid where a cell is 1 exactly when the walk from `(width // 3, height // 2)` marks it |
| LSystem.Derive | algorithms/lsystem.py:6-11 | the rewriting loop computes `Generation(iterations)` |
| LSystem.CountConcat | algorithms/lsystem.py:10 | counts add up over a concatenation |
| LSystem.RuleCount | algorithms/lsystem.py:6 | the rule's right-hand side has 11 characters, 5 of them `F` |
| LSystem.RuleDepth | algorithms/lsystem.py:6 | the right-hand side closes every bracket it opens |
| LSystem.RuleNested | algorithms/lsystem.py:6 | the right-hand side never closes a bracket it did not open, and its turns sit inside brackets |
| LSystem.RewriteCounts | algorithms/lsystem.py:6-10 | an `F` becomes five `F`s among eleven characters; any other character stays as one character |
| LSystem.ExpandCounts | algorithms/lsystem.py:10 | one generation multiplies the `F`s by five and adds ten characters per `F` |
| LSystem.GenerationCountF | algorithms/lsystem.py:7-11 | after `n` generations there are `5^n` `F`s |
| LSystem.GenerationLength | algorithms/lsystem.py:7-11 | the length starts at 1 and grows by `10 * 5^n` in generation `n + 1` |
| LSystem.GenerationAlphabet | algorithms/lsystem.py:6-11 | every generation uses only `F + - [ ]` |
| LSystem.DepthCounts | algorithms/lsystem.py:33-36 | the bracket depth is the number of `[` minus the number of `]` |
| LSystem.ExpandNested | algorithms/lsystem.py:10 | rewriting keeps a string properly nested and keeps its depth |
| LSystem.NestedPrefixes | algorithms/lsystem.py:33-36 | no prefix of a nested string closes more brackets than it opens |
| LSystem.GenerationBalanced | algorithms/lsystem.py:6-11 | every generation is balanced: equal bracket counts, depth 0, and no prefix below depth 0 |
| LSystem.Act | algorithms/lsystem.py:18-36 | only brackets touch the stack, only `F` and a pop move the turtle, only turns and a pop change the heading; `F` moves by the heading's offset, `+`/`-` turn by 25 degrees, `[` saves the state on top, `]` restores and removes the top, and an unmatched `]` or another character changes nothing |
| LSystem.PushPop | algorithms/lsystem.py:33-36 | a `[` followed by a `]` gives back the turtle unchanged |
| LSystem.RunAnchored | algorithms/lsystem.py:18-36 | along a nested string the stack only grows on top of where it started, and `]` never meets an empty stack |
| LSystem.GenerationRestores | algorithms/lsystem.py:13-36 | reading any generation from the start ends with an empty stack and heading -90, and the empty-stack guard of `]` is never needed |
| LSystem.LerpInside | algorithms/lsystem.py:24-26 | an interpolated sample between two in-bounds ends is in bounds |
| LSystem.SamplesInside | algorithms/lsystem.py:22-28 | with both ends in bounds, every sample passes the inner bounds check |
| LSystem.RunMarksInGrid | algorithms/lsystem.py:18-30 | every cell the turtle marks is inside the grid |
| LSystem.DrawSegment | algorithms/lsystem.py:24-29 | the ten samples of a segment set exactly its sample cells |
| LSystem.Step | algorithms/lsystem.py:18-36 | one character updates the turtle as `Act` does and sets that character's cells |
| LSystem.GenerateLSystem | algorithms/lsystem.py:3-39 | a `height x width` 0/1 grid whose 1-cells are exactly the cells the turtle marks reading generation `iterations` |
| Sierpinski.Leaves | patterns/sierpinski.py:7-21 | the recursion reaches `3^depth` depth-zero triangles |
| Sierpinski.VertexMarksBounded | patterns/sierpinski.py:9-13 | a depth-zero call sets at most three cells, all inside the grid |
| Sierpinski.UnionMarksConcat | patterns/sierpinski.py:19-21 | the cells of consecutive calls are the union of their cells |
| Sierpinski.TriangleMarksLeaves | patterns/sierpinski.py:7-21 | the cells set are exactly the vertex cells of the depth-zero triangles |
| Sierpinski.LeavesInBox | patterns/sierpinski.py:15-21 | subdivision never leaves the box that holds the triangle |
| Sierpinski.InitialLeavesInBounds | patterns/sierpinski.py:23-28 | every leaf vertex lies in `[0.1w, 0.9w] x [0.1h, 0.9h]`, so on a non-empty grid every vertex passes the guard |
| Sierpinski.DrawTriangle | patterns/sierpinski.py:7-21 | the recursive call sets exactly the cells of `TriangleMarks` and keeps the rest |
| Sierpinski.GenerateSierpinski | patterns/sierpinski.py:3-29 | a `height x width` grid whose 1-cells are exactly those the recursion from the initial triangle sets |
| PatternGenerator.BlockInside | pattern_generator.py:98-110 | every block read lies inside the pixel grid |
| PatternGenerator.RemainderUnread | pattern_generator.py:98-108 | pixels right of or below the last whole tile fall in no block |
| PatternGenerator.InkIsHit | pattern_generator.py:110 | a block is inked exactly when one of its pixels is among the generator's marked cells |
| PatternGenerator.BlankAndFull | pattern_generator.py:109-111 | an all-zero grid inks no block; a positive pixel in a block inks it |
| PatternGenerator.TileForModulo | pattern_generator.py:114-118 | two scaled values select the same identifier exactly when they agree modulo six |
| PatternGenerator.DownsampleRow | pattern_generator.py:104-111 | one scaled row gets 1 exactly on inked blocks |
| PatternGenerator.Downsample | pattern_generator.py:98-111 | a `(height // ts) x (width // ts)` grid with 1 exactly on inked blocks and 0 elsewhere |
| PatternGenerator.SelectTiles | pattern_generator.py:114-120 | each cell selects its identifier |
| PatternGenerator.TileGrid | pattern_generator.py:96-120 | a tile cell is `B` exactly when its block is inked, and `A` otherwise |
| PatternGenerator.PatternGenerator.constructor | pattern_generator.py:23-27 | the fields are stored, and the tile factory gets the same tile size |
| PatternGenerator.PatternGenerator.GenerateAlgorithmicPattern | pattern_generator.py:75-120 | `SINEWAVE` raises the arity TypeError and an unmatched kind gives no tiles. For the five generators: tile size 0 raises ZeroDivisionError; a negative size raises for a non-empty image; otherwise the tile grid has `B` exactly on blocks holding a cell the generator marks |
| PatternGenerator.SpanCovers | pattern_generator.py:66-67 | `range(0, n, ts)` has `ceil(n / ts)` positions |
| PatternGenerator.Read | pattern_generator.py:36-42 | there is no neighbour exactly when the tile start is outside the image; the read fails with `PixelOutside` exactly when the start is inside and the centre is outside; otherwise it gives the stored colour of that tile position |
| PatternGenerator.WholeTilesRead | pattern_generator.py:36-42 | when the tile size divides both sides, no neighbour read fails |
| PatternGenerator.WholeTilesValid | pattern_generator.py:44-49 | when the tile size divides both sides, collecting the four neighbour reads never fails |
| PatternGenerator.PartialTileRead | pattern_generator.py:40-42 | on a 3 x 1 image with tile size 2, reading tile position 1 fails because its centre is the pixel at `x = 3`, outside the image |
| PatternGenerator.PresentMembers | pattern_generator.py:52-55 | a colour is invalid exactly when some neighbour read returned it |
| PatternGenerator.AllowedMembers | pattern_generator.py:58-64 | a type is valid exactly when it is offered and its colour is not invalid |
| PatternGenerator.FreeColour | pattern_generator.py:52-64 | four colours leave at least one of the six tile colours free |
| PatternGenerator.AllowedNonEmpty | pattern_generator.py:52-64 | with every type offered, the valid list for four neighbours is never empty |
| PatternGenerator.PatternGenerator.ValidTileTypes | pattern_generator.py:44-64 | the loops compute the specified valid list, or fail when a neighbour read fails |
| PatternGenerator.PatternGenerator.PickColour | pattern_generator.py:68-72 | the chosen colour is an offered one; whenever the valid list is non-empty it differs from every neighbour read; with every type offered it differs from the placed left and upper neighbours; it fails only on a partial tile or an empty type list |
| PatternGenerator.PatternGenerator.PlaceAt | pattern_generator.py:68-73 | the placed colour is an offered one, whenever the valid list is non-empty it differs from every neighbour read, and no other cell changes |
| PatternGenerator.PatternGenerator.RandomRow | pattern_generator.py:67-73 | one row of positions is placed, and other rows are kept |
| PatternGenerator.PatternGenerator.RandomPattern | pattern_generator.py:35-73 | every cell gets an offered colour. With all six types offered, no two horizontally or vertically adjacent cells share a colour. A zero step raises, a negative step does nothing, a failing read needs a partial tile, and a failing choice needs an empty type list |

## Left out

- `patterns/fibonacci_spiral.py`, `algorithms/voronoi.py` and the Voronoi generator: they rely on float trigonometry and on scipy's `Voronoi`. The dispatch takes their output grid as the parameter `external`.
- `patterns/sine_wave.py`: per-pixel `sin`/`cos`. The dispatch calls it with three arguments while it takes two, so that branch is modelled only as the resulting TypeError.
- PIL images: creation, `paste`, `getpixel` and `save`. Images are the abstract grids described above, and a pasted tile is the cell that stands for it.
- `_generate_filename`, `os.makedirs`, the returned file name, `uuid`, and the bird-name `random.choice`: these are naming and filesystem steps.
- `main.py`, the command-line front end, and `algorithms/__init__.py`: entry points and re-exports.
- The float step length of the dragon curve and the `cos`/`sin` of the L-system heading. They are the parameters `stepSize` and `offset`, and positions are exact reals rather than doubles.
- Widths, heights, segment counts, iterations and depths are `nat`. Negative values are not modelled. For example, a negative Sierpinski depth never reaches depth 0, so the source raises RecursionError after about a thousand nested calls.
- Pixel grids hold integers 0 and 1 rather than numpy floats.
- `QuiltEngine.GenerateBlanket` and `BlanketPatterns.GenerateBlanket`: `random.choice` over the template list is the parameter `choice`.
- `QuiltEngine.GenerateAllRows` (and `QuiltEngine.AllRows`, `QuiltEngine.GenerateBlanket`): Python's recursion limit is not modelled. `_generate_all_rows` recurses once per row, so with CPython's default limit of 1000 frames the source raises RecursionError once `segments_y` nears 1000. The model promises the rows of `AllRows` for every `segments_y`. The loop engine has no such limit, so the agreement of the two engines holds for the program only below that height.
- `PatternGenerator.PatternGenerator.RandomPattern`:
  - it needs the tile factory's size to equal `tile_size`. The constructor establishes this. Assigning either size afterwards can break it: the factory's `tile_size` setter, or the generator's plain `tile_size` attribute, which `get_tile_type_at` reads while `create_tile` uses the factory's size;
  - the image is its grid of tile-centre colours, so `paste` writing the remaining pixels of a tile is not modelled;
  - it assumes the caller's image has RGB mode;
  - it assumes the caller's image is exactly `width x height` pixels. `getpixel` checks the image's own size, while the model decides a failing read against `width` and `height`. On a larger image the source reads a colour where the model has `PixelOutside`;
  - after an error it states nothing about the partly filled image.
- `PatternGenerator.PatternGenerator.GenerateAlgorithmicPattern`: it uses the generators' default parameters (12 folds, depth 8, 5 generations). It does not model the black border of pixels beyond the last whole tile.
