/**
 * The tile catalogue: the ordered set of tile identifiers, their solid colours,
 * and the tile factory whose tile size is validated on assignment.
 */
module Tiles {
  import opened Wrappers

  /** Tile identifiers, in declaration order. */
  datatype TileType = A | B | C | D | E | F

  /** `list(TileType)`: every identifier once, in declaration order. */
  const AllTiles: seq<TileType> := [A, B, C, D, E, F]

  /** Position of an identifier in declaration order. */
  function Index(t: TileType): (i: nat)
    ensures i < |AllTiles| && AllTiles[i] == t
  {
    match t
    case A => 0
    case B => 1
    case C => 2
    case D => 3
    case E => 4
    case F => 5
  }

  /** Declaration order lists six distinct identifiers and misses none. */
  lemma AllTilesEnumerates()
    ensures |AllTiles| == 6
    ensures forall t: TileType :: t in AllTiles
    ensures forall i, j :: 0 <= i < j < |AllTiles| ==> AllTiles[i] != AllTiles[j]
    ensures forall i :: 0 <= i < |AllTiles| ==> Index(AllTiles[i]) == i
  {
    forall t: TileType ensures t in AllTiles {
      assert AllTiles[Index(t)] == t;
    }
  }

  /** The generator kinds the dispatch knows. */
  datatype AlgorithmType = Fibonacci | Dragon | Sierpinski | Voronoi | LSystem | SineWave

  /** An RGB triple. */
  datatype Rgb = Rgb(r: int, g: int, b: int)

  predicate IsChannel(v: int)
  {
    0 <= v <= 255
  }

  const Black := Rgb(0, 0, 0)

  /** `TILE_COLORS`: the colour of every identifier. */
  function Color(t: TileType): (c: Rgb)
    ensures IsChannel(c.r) && IsChannel(c.g) && IsChannel(c.b)
  {
    match t
    case A => Black
    case B => Rgb(255, 255, 255)
    case C => Rgb(0, 0, 255)
    case D => Rgb(255, 255, 0)
    case E => Rgb(255, 0, 255)
    case F => Rgb(0, 255, 255)
  }

  /** No two identifiers share a colour, so a colour names at most one identifier. */
  lemma ColorInjective(s: TileType, t: TileType)
    ensures Color(s) == Color(t) <==> s == t
  {
  }

  /** A freshly created image is black, which is the colour of `A`. */
  lemma BlackIsA()
    ensures Color(A) == Black
    ensures forall t: TileType :: Color(t) == Black ==> t == A
  {
  }

  const DefaultTileSize: int := 32

  /** The solid square image `create_tile` returns: its side and its fill colour. */
  datatype Tile = Tile(size: int, color: Rgb)

  datatype TileError = TileSizeMustBePositive

  class TileGenerator {
    /** `_tile_size`, read through the `tile_size` property. */
    var tileSize: int

    /** The constructor stores its argument without validation. */
    constructor (tileSize: int := DefaultTileSize)
      ensures this.tileSize == tileSize
    {
      this.tileSize := tileSize;
    }

    /** The `tile_size` setter: non-positive sizes are refused and leave the size unchanged. */
    method SetTileSize(value: int) returns (r: Option<TileError>)
      modifies this
      ensures value <= 0 ==> r == Some(TileSizeMustBePositive) && tileSize == old(tileSize)
      ensures 0 < value ==> r == None && tileSize == value
    {
      if value <= 0 {
        return Some(TileSizeMustBePositive);
      }
      tileSize := value;
      r := None;
    }

    /**
     * `create_tile`: a square of the current size filled with the identifier's
     * colour, so reading its colour back names the identifier, and only `A`
     * gives black.
     */
    function CreateTile(t: TileType): (tile: Tile)
      reads this
      ensures tile.size == tileSize && tile.color == Color(t)
      ensures forall s: TileType :: Color(s) == tile.color <==> s == t
      ensures tile.color == Black <==> t == A
    {
      Tile(tileSize, Color(t))
    }
  }
}
