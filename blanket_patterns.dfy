/**
 * The loop quilt engine. It keeps the same state machine as the recursive
 * engine, but fills the grid cell by cell in a nested loop and updates its
 * state variables in place. Its results are stated against the value-level
 * specification of the recursive engine, so both engines are proved to
 * produce the same grid for the same template.
 */
module BlanketPatterns {
  import opened Wrappers
  import opened Tiles
  import opened QuiltEngine

  /** A row pattern object of this engine (the same four fields as a quilt row). */
  class RowPattern {
    var tiles: seq<TileType>
    var repeat: bool
    var useRelated: bool
    var rows: int

    constructor (tiles: seq<TileType>, repeat: bool := true, useRelated: bool := false, rows: int := 1)
      ensures Value() == Row(tiles, repeat, useRelated, rows)
    {
      this.tiles := tiles;
      this.repeat := repeat;
      this.useRelated := useRelated;
      this.rows := rows;
    }

    function Value(): Row
      reads this
    {
      Row(tiles, repeat, useRelated, rows)
    }
  }

  /** The values of a list of row pattern objects. */
  function PatternValues(ps: seq<RowPattern>): (vs: seq<Row>)
    reads ps
    ensures |vs| == |ps| && forall i :: 0 <= i < |ps| ==> vs[i] == ps[i].Value()
  {
    if ps == [] then [] else [ps[0].Value()] + PatternValues(ps[1..])
  }

  /** `blanket_patterns`: one template, equal as values to the recursive engine's. */
  method ShippedPatterns() returns (templates: seq<seq<RowPattern>>)
    ensures |templates| == 1 && PatternValues(templates[0]) == ShippedTemplate
    ensures forall i :: 0 <= i < |templates[0]| ==> fresh(templates[0][i])
  {
    var diagonal := new RowPattern([A, B], useRelated := true, rows := 2);
    var triple := new RowPattern([C, D, E], rows := 1);
    var solid := new RowPattern([E]);
    templates := [[diagonal, triple, solid]];
  }

  /** `get_related_pattern`: a fresh object holding the derived row; `prev` is not touched. */
  method GetRelatedPattern(prev: RowPattern) returns (r: RowPattern)
    ensures fresh(r) && r.Value() == RelatedRow(prev.Value())
  {
    var unusedTiles := Unused(prev.tiles);
    r := new RowPattern(Take(unusedTiles, |prev.tiles|), prev.repeat);
  }

  /** Lines 57-59 of `generate_blanket`: row `sy` becomes the fill of `tiles`, every other row is kept. */
  method FillRow(pattern: array2<TileType>, sy: nat, tiles: seq<TileType>)
    requires sy < pattern.Length0 && (0 < |tiles| || pattern.Length1 == 0)
    modifies pattern
    ensures forall j :: 0 <= j < pattern.Length1 ==> pattern[sy, j] == QuiltRowTiles(tiles, pattern.Length1)[j]
    ensures forall i, j :: 0 <= i < pattern.Length0 && i != sy && 0 <= j < pattern.Length1 ==> pattern[i, j] == old(pattern[i, j])
  {
    ghost var line := QuiltRowTiles(tiles, pattern.Length1);
    for sx := 0 to pattern.Length1
      invariant forall j :: 0 <= j < sx ==> pattern[sy, j] == line[j]
      invariant forall i, j :: 0 <= i < pattern.Length0 && i != sy && 0 <= j < pattern.Length1 ==> pattern[i, j] == old(pattern[i, j])
    {
      QuiltRowCell(tiles, pattern.Length1, sx);
      pattern[sy, sx] := tiles[sx % |tiles|];
    }
  }

  /**
   * Lines 62-70 of `generate_blanket`: the transition after a row. Only a freshly
   * derived object is written, so no template object changes.
   */
  method Transition(current: RowPattern, patterns: seq<RowPattern>, patternIndex: int, rowsInCurrent: int,
                    ghost templates: seq<Row>, ghost state: State)
    returns (next: RowPattern, newIndex: int, newRows: int)
    requires 0 <= patternIndex < |patterns| && templates == PatternValues(patterns)
    requires state == State(current.Value(), patternIndex, rowsInCurrent)
    ensures State(next.Value(), newIndex, newRows) == NextState(state, templates)
  {
    next, newIndex, newRows := current, patternIndex, rowsInCurrent + 1;
    if newRows >= next.rows {
      newRows := 0;
      newIndex := (newIndex + 1) % |patterns|;
      next := patterns[newIndex];
    } else if next.useRelated {
      next := GetRelatedPattern(next);
      next.useRelated := true;
      next.rows := patterns[newIndex].rows - newRows;
    }
  }

  /**
   * The loop of `generate_blanket` (lines 51-70) over a template with at least
   * one entry: on success every row of `pattern` is the recursion's row; `ok` is
   * false where the source raises.
   */
  method FillBlanket(pattern: array2<TileType>, patterns: seq<RowPattern>, segmentsX: nat, segmentsY: nat, ghost vs: seq<Row>)
    returns (ok: bool, ghost rows: seq<seq<TileType>>)
    requires 0 < |patterns| && vs == PatternValues(patterns)
    requires pattern.Length0 == segmentsY && pattern.Length1 == segmentsX
    modifies pattern
    ensures Blanket(vs, segmentsX, segmentsY) == if ok then Some(rows) else None
    ensures ok ==> |rows| == segmentsY && forall i, j :: 0 <= i < segmentsY && 0 <= j < segmentsX ==> pattern[i, j] == rows[i][j]
  {
    var currentPattern := patterns[0];
    var patternIndex := 0;
    var rowsInCurrent := 0;
    ghost var state := Initial(vs);
    rows := [];
    for sy := 0 to segmentsY
      invariant PatternValues(patterns) == vs
      invariant 0 <= patternIndex < |patterns|
      invariant state == State(currentPattern.Value(), patternIndex, rowsInCurrent)
      invariant |rows| == sy && forall i :: 0 <= i < sy ==> |rows[i]| == segmentsX
      invariant forall i, j :: 0 <= i < sy && 0 <= j < segmentsX ==> pattern[i, j] == rows[i][j]
      invariant Blanket(vs, segmentsX, segmentsY) == Prepend(rows, AllRows(vs, segmentsX, segmentsY, state, sy))
    {
      if segmentsX > 0 && |currentPattern.tiles| == 0 {
        assert AllRows(vs, segmentsX, segmentsY, state, sy) == None;
        return false, rows;
      }
      FillRow(pattern, sy, currentPattern.tiles);
      AllRowsPrepend(vs, segmentsX, segmentsY, state, sy, rows);
      rows := rows + [QuiltRowTiles(currentPattern.tiles, segmentsX)];
      currentPattern, patternIndex, rowsInCurrent := Transition(currentPattern, patterns, patternIndex, rowsInCurrent, vs, state);
      state := NextState(state, vs);
    }
    assert AllRows(vs, segmentsX, segmentsY, state, segmentsY) == Some([]);
    assert rows + [] == rows;
    ok := true;
  }

  /**
   * `generate_blanket`. `choice` is the index `random.choice` picks in
   * `templates`; the result is None where the source raises (an empty template
   * list, or a row pattern without tiles on a non-empty row). The grid is the
   * one the recursive engine specifies, and no template object changes.
   */
  method GenerateBlanket(templates: seq<seq<RowPattern>>, choice: nat, segmentsX: nat := 3, segmentsY: nat := 4)
    returns (r: Option<array2<TileType>>)
    requires choice < |templates|
    ensures PatternValues(templates[choice]) == old(PatternValues(templates[choice]))
    ensures |templates[choice]| == 0 ==> r.None?
    ensures 0 < |templates[choice]| ==>
      var spec := Blanket(PatternValues(templates[choice]), segmentsX, segmentsY);
      && (r.Some? <==> spec.Some?)
      && (r.Some? ==>
            && fresh(r.value)
            && r.value.Length0 == segmentsY && r.value.Length1 == segmentsX
            && forall i, j :: 0 <= i < segmentsY && 0 <= j < segmentsX ==> r.value[i, j] == spec.value[i][j])
  {
    var patterns := templates[choice];
    if |patterns| == 0 {
      return None;
    }
    var pattern := new TileType[segmentsY, segmentsX];
    var ok, rows := FillBlanket(pattern, patterns, segmentsX, segmentsY, PatternValues(patterns));
    r := if ok then Some(pattern) else None;
  }
}
