/**
 * The recursive quilt row engine.
 *
 * A template is a cyclic list of row patterns. Each output row cycles the current
 * pattern's tiles; after the row, a small state machine over
 * (current pattern, pattern index, rows emitted under the current pattern)
 * either advances to the next template entry or, for a pattern flagged
 * `useRelated`, derives a fresh "related" pattern from the complement of the
 * current tiles.
 *
 * The value level (Row, State, NextState, AllRows) is the specification; the class
 * QuiltRow and the methods below mirror the source's objects, which are created
 * once per template and never mutated, while derived rows are fresh objects whose
 * fields are overwritten.
 */
module QuiltEngine {
  import opened Wrappers
  import opened Tiles
  import Arith

  /** The value of a row pattern: its tile cycle, the repeat flag, whether the
      following rows of its span are derived, and its span in rows. */
  datatype Row = Row(tiles: seq<TileType>, repeat: bool, useRelated: bool, rows: int)

  /** Tiles listed in strictly increasing declaration order (so also without repeats). */
  predicate Ascending(s: seq<TileType>)
  {
    forall i, j :: 0 <= i < j < |s| ==> Index(s[i]) < Index(s[j])
  }

  /** The identifier `t` when `prev` does not use it, otherwise nothing. */
  function Keep(t: TileType, prev: seq<TileType>): seq<TileType>
  {
    if t in prev then [] else [t]
  }

  /**
   * `unused_tiles`: the identifiers absent from `prev`, in declaration order
   * (the comprehension over the enumeration, written out for its six members).
   */
  function Unused(prev: seq<TileType>): seq<TileType>
  {
    Keep(A, prev) + Keep(B, prev) + Keep(C, prev) + Keep(D, prev) + Keep(E, prev) + Keep(F, prev)
  }

  /** An identifier is unused exactly when `prev` does not contain it. */
  lemma UnusedMembers(prev: seq<TileType>)
    ensures forall t :: t in Unused(prev) <==> t !in prev
  {
    forall t ensures t in Unused(prev) <==> t !in prev {
      assert forall u :: u in Keep(u, prev) <==> u !in prev;
      assert forall u, v :: u != v ==> v !in Keep(u, prev);
    }
  }

  /** Appending an identifier later than everything in an ascending prefix keeps it ascending. */
  lemma KeepAfter(s: seq<TileType>, t: TileType, prev: seq<TileType>)
    requires Ascending(s) && forall u :: u in s ==> Index(u) < Index(t)
    ensures Ascending(s + Keep(t, prev))
    ensures forall u :: u in s + Keep(t, prev) ==> Index(u) <= Index(t)
  {
    if t in prev {
      assert s + Keep(t, prev) == s;
    } else {
      var r := s + [t];
      forall i, j | 0 <= i < j < |r| ensures Index(r[i]) < Index(r[j]) {
        assert r[i] == s[i];
        if j < |s| {
          assert r[j] == s[j];
        } else {
          assert s[i] in s;
        }
      }
    }
  }

  /** The unused identifiers come in declaration order. */
  lemma UnusedAscending(prev: seq<TileType>)
    ensures Ascending(Unused(prev))
  {
    var p1 := Keep(A, prev);
    KeepAfter(p1, B, prev);
    var p2 := p1 + Keep(B, prev);
    KeepAfter(p2, C, prev);
    var p3 := p2 + Keep(C, prev);
    KeepAfter(p3, D, prev);
    var p4 := p3 + Keep(D, prev);
    KeepAfter(p4, E, prev);
    var p5 := p4 + Keep(E, prev);
    KeepAfter(p5, F, prev);
  }

  /** Python's slice `s[:n]` for `n >= 0`. */
  function Take<T>(s: seq<T>, n: nat): (r: seq<T>)
    ensures |r| == if n <= |s| then n else |s|
    ensures r == s[..|r|]
  {
    if n <= |s| then s[..n] else s
  }

  /**
   * `_get_related_quilt_row`: the first `|prev.tiles|` identifiers, in declaration
   * order, that `prev` does not use; `repeat` is copied, the other fields take the
   * constructor's defaults.
   */
  function RelatedRow(prev: Row): Row
  {
    Row(Take(Unused(prev.tiles), |prev.tiles|), prev.repeat, false, 1)
  }

  /**
   * The derived row avoids every identifier of `prev`, lists its identifiers in
   * declaration order, is as long as `prev` unless fewer identifiers are unused,
   * keeps `repeat` and spans one plain row.
   */
  lemma RelatedRowShape(prev: Row)
    ensures var r := RelatedRow(prev);
      && (forall t :: t in r.tiles ==> t !in prev.tiles)
      && Ascending(r.tiles)
      && |r.tiles| == (if |prev.tiles| <= |Unused(prev.tiles)| then |prev.tiles| else |Unused(prev.tiles)|)
      && r.repeat == prev.repeat && !r.useRelated && r.rows == 1
  {
    var unused := Unused(prev.tiles);
    var tiles := Take(unused, |prev.tiles|);
    assert RelatedRow(prev) == Row(tiles, prev.repeat, false, 1);
    PrefixOfUnused(prev.tiles, tiles);
  }

  /** A prefix of the unused identifiers avoids `prev` and is in declaration order. */
  lemma PrefixOfUnused(prev: seq<TileType>, tiles: seq<TileType>)
    requires |tiles| <= |Unused(prev)| && tiles == Unused(prev)[..|tiles|]
    ensures forall t :: t in tiles ==> t !in prev
    ensures Ascending(tiles)
  {
    var unused := Unused(prev);
    UnusedMembers(prev);
    UnusedAscending(prev);
    forall t | t in tiles ensures t !in prev {
      var i :| 0 <= i < |tiles| && tiles[i] == t;
      assert unused[i] == t;
    }
    forall i, j | 0 <= i < j < |tiles| ensures Index(tiles[i]) < Index(tiles[j]) {
      assert tiles[i] == unused[i] && tiles[j] == unused[j];
    }
  }

  /**
   * The derived tiles are the earliest unused ones: an unused identifier left out
   * comes after every chosen one, and is left out only when the row is full.
   */
  lemma RelatedRowTakesFirst(prev: Row, t: TileType)
    requires t !in prev.tiles && t !in RelatedRow(prev).tiles
    ensures |RelatedRow(prev).tiles| == |prev.tiles|
    ensures forall u :: u in RelatedRow(prev).tiles ==> Index(u) < Index(t)
  {
    var unused := Unused(prev.tiles);
    var tiles := RelatedRow(prev).tiles;
    UnusedMembers(prev.tiles);
    UnusedAscending(prev.tiles);
    assert tiles == unused[..|tiles|];
    var i :| 0 <= i < |unused| && unused[i] == t;
    assert forall k :: 0 <= k < |tiles| ==> tiles[k] == unused[k];
    assert |tiles| <= i;
    forall u | u in tiles ensures Index(u) < Index(t) {
      var j :| 0 <= j < |tiles| && tiles[j] == u;
      assert unused[j] == u;
    }
  }

  /** `_generate_quilt_row`: `segmentsX` cells cycling through `tiles`. */
  function QuiltRowTiles(tiles: seq<TileType>, segmentsX: nat): (r: seq<TileType>)
    requires 0 < |tiles| || segmentsX == 0
    ensures |r| == segmentsX
    ensures forall x {:trigger r[x]} :: 0 <= x < segmentsX && x < |tiles| ==> r[x] == tiles[x]
    ensures forall x :: 0 <= x < segmentsX ==> r[x] in tiles
  {
    var r := seq(segmentsX, x requires 0 <= x < segmentsX => tiles[x % |tiles|]);
    forall x | 0 <= x < segmentsX && x < |tiles| ensures r[x] == tiles[x] {
      Arith.ModBelow(x, |tiles|);
    }
    r
  }

  /** Cell `x` of a row shows tile `x mod |tiles|` of its cycle. */
  lemma QuiltRowCell(tiles: seq<TileType>, segmentsX: nat, x: nat)
    requires 0 < |tiles| && x < segmentsX
    ensures QuiltRowTiles(tiles, segmentsX)[x] == tiles[x % |tiles|]
  {
  }

  /** A row repeats with period `|tiles|`: cell `x + |tiles|` shows the same tile as cell `x`. */
  lemma QuiltRowPeriodic(tiles: seq<TileType>, segmentsX: nat, x: nat)
    requires 0 < |tiles| && x + |tiles| < segmentsX
    ensures QuiltRowTiles(tiles, segmentsX)[x + |tiles|] == QuiltRowTiles(tiles, segmentsX)[x]
  {
    Arith.ModShift(x, |tiles|);
  }

  /** The engine's state between rows. */
  datatype State = State(current: Row, index: int, inCurrent: int)

  /** The row fill of state `s` raises ZeroDivisionError (an empty tile cycle on a non-empty row). */
  predicate Raises(s: State, segmentsX: nat)
  {
    |s.current.tiles| == 0 && 0 < segmentsX
  }

  /** `_get_next_pattern_state`, on values. */
  function NextState(s: State, patterns: seq<Row>): (r: State)
    requires 0 <= s.index < |patterns|
    ensures 0 <= r.index < |patterns|
  {
    var n := s.inCurrent + 1;
    if n >= s.current.rows then
      var i := (s.index + 1) % |patterns|;
      State(patterns[i], i, 0)
    else if s.current.useRelated then
      State(RelatedRow(s.current).(useRelated := true, rows := patterns[s.index].rows - n), s.index, n)
    else
      State(s.current, s.index, n)
  }

  /**
   * Every transition either stays on the current template entry with one more row
   * counted, or moves on to the next entry, cyclically, with the counter reset.
   */
  lemma NextStateAdvances(s: State, patterns: seq<Row>)
    requires 0 <= s.index < |patterns|
    ensures var r := NextState(s, patterns);
      || (r.index == s.index && r.inCurrent == s.inCurrent + 1)
      || (r.index == (s.index + 1) % |patterns| && r.inCurrent == 0 && r.current == patterns[r.index])
  {
  }

  /** Once the current entry's span is used up, the next entry takes over with the counter reset. */
  lemma NextStateMoves(s: State, patterns: seq<Row>)
    requires 0 <= s.index < |patterns| && s.inCurrent + 1 >= s.current.rows
    ensures var j := (s.index + 1) % |patterns|;
      NextState(s, patterns) == State(patterns[j], j, 0)
  {
  }

  /** The first state of a generation: the first template entry, nothing emitted. */
  function Initial(patterns: seq<Row>): State
    requires 0 < |patterns|
  {
    State(patterns[0], 0, 0)
  }

  /** The state after `k` transitions from `s` (an iterative reference for the recursion). */
  function Steps(s: State, patterns: seq<Row>, k: nat): (r: State)
    requires 0 <= s.index < |patterns|
    ensures 0 <= r.index < |patterns|
  {
    if k == 0 then s else NextState(Steps(s, patterns, k - 1), patterns)
  }

  /** The state in force while row `k` is filled. */
  function StateAt(patterns: seq<Row>, k: nat): State
    requires 0 < |patterns|
  {
    Steps(Initial(patterns), patterns, k)
  }

  /**
   * `_generate_all_rows` started at `row` in state `s`: the rows `row ..
   * segmentsY - 1`, or None when a row fill raises.
   */
  function AllRows(patterns: seq<Row>, segmentsX: nat, segmentsY: nat, s: State, row: nat): (r: Option<seq<seq<TileType>>>)
    requires 0 <= s.index < |patterns| && row <= segmentsY
    ensures r.Some? ==> |r.value| == segmentsY - row
    ensures r.Some? ==> forall k :: 0 <= k < |r.value| ==> |r.value[k]| == segmentsX
    decreases segmentsY - row
  {
    if row == segmentsY then Some([])
    else if Raises(s, segmentsX) then None
    else
      match AllRows(patterns, segmentsX, segmentsY, NextState(s, patterns), row + 1)
      case None => None
      case Some(rest) => Some([QuiltRowTiles(s.current.tiles, segmentsX)] + rest)
  }

  /** `generate_blanket` on a chosen template, on values. */
  function Blanket(patterns: seq<Row>, segmentsX: nat, segmentsY: nat): Option<seq<seq<TileType>>>
    requires 0 < |patterns|
  {
    AllRows(patterns, segmentsX, segmentsY, Initial(patterns), 0)
  }

  /** One transition more. */
  lemma StepsNext(s: State, patterns: seq<Row>, k: nat)
    requires 0 <= s.index < |patterns|
    ensures Steps(s, patterns, k + 1) == NextState(Steps(s, patterns, k), patterns)
  {
  }

  /** A run of transitions that ends on a spent entry `i` moves on to the entry after `i`. */
  lemma StepsMove(s: State, patterns: seq<Row>, k: nat, i: int)
    requires 0 <= s.index < |patterns| && Steps(s, patterns, k).index == i
    requires Steps(s, patterns, k).inCurrent + 1 >= Steps(s, patterns, k).current.rows
    ensures var j := (i + 1) % |patterns|;
      Steps(s, patterns, k + 1) == State(patterns[j], j, 0)
  {
    StepsNext(s, patterns, k);
    NextStateMoves(Steps(s, patterns, k), patterns);
  }

  lemma {:induction false} StepsShift(s: State, patterns: seq<Row>, k: nat)
    requires 0 <= s.index < |patterns|
    ensures Steps(NextState(s, patterns), patterns, k) == Steps(s, patterns, k + 1)
  {
    if k > 0 {
      StepsShift(s, patterns, k - 1);
    }
  }

  /** None of the first `n` states reached from `s` makes its row fill raise. */
  predicate NoneRaise(s: State, patterns: seq<Row>, segmentsX: nat, n: nat)
    requires 0 <= s.index < |patterns|
  {
    forall k: nat :: k < n ==> !Raises(Steps(s, patterns, k), segmentsX)
  }

  /** A run of states that do not raise grows by one state that does not raise. */
  lemma NoneRaiseExtend(s: State, patterns: seq<Row>, segmentsX: nat, n: nat)
    requires 0 <= s.index < |patterns|
    requires NoneRaise(s, patterns, segmentsX, n) && !Raises(Steps(s, patterns, n), segmentsX)
    ensures NoneRaise(s, patterns, segmentsX, n + 1)
  {
    forall k: nat | k < n + 1 ensures !Raises(Steps(s, patterns, k), segmentsX) {
      if k < n {
        assert !Raises(Steps(s, patterns, k), segmentsX);
      }
    }
  }

  /** Peeling the first state off a run of states that do not raise. */
  lemma NoneRaiseShift(s: State, patterns: seq<Row>, segmentsX: nat, n: nat)
    requires 0 <= s.index < |patterns| && 0 < n
    ensures NoneRaise(s, patterns, segmentsX, n)
        <==> !Raises(s, segmentsX) && NoneRaise(NextState(s, patterns), patterns, segmentsX, n - 1)
  {
    var s' := NextState(s, patterns);
    forall k: nat | k < n - 1 ensures Steps(s', patterns, k) == Steps(s, patterns, k + 1) {
      StepsShift(s, patterns, k);
    }
    if NoneRaise(s, patterns, segmentsX, n) {
      assert !Raises(Steps(s, patterns, 0), segmentsX);
      forall k: nat | k < n - 1 ensures !Raises(Steps(s', patterns, k), segmentsX) {
        assert !Raises(Steps(s, patterns, k + 1), segmentsX);
      }
    }
    if !Raises(s, segmentsX) && NoneRaise(s', patterns, segmentsX, n - 1) {
      forall k: nat | k < n ensures !Raises(Steps(s, patterns, k), segmentsX) {
        if k > 0 {
          assert Steps(s, patterns, k) == Steps(s', patterns, k - 1);
        }
      }
    }
  }

  /** The recursion fails exactly when one of the remaining row fills raises. */
  lemma {:induction false} AllRowsSucceeds(patterns: seq<Row>, segmentsX: nat, segmentsY: nat, s: State, row: nat)
    requires 0 <= s.index < |patterns| && row <= segmentsY
    decreases segmentsY - row
    ensures AllRows(patterns, segmentsX, segmentsY, s, row).Some? <==> NoneRaise(s, patterns, segmentsX, segmentsY - row)
  {
    if row < segmentsY {
      AllRowsSucceeds(patterns, segmentsX, segmentsY, NextState(s, patterns), row + 1);
      NoneRaiseShift(s, patterns, segmentsX, segmentsY - row);
    }
  }

  /** On success the recursion emits, for every remaining row, the fill of the state reached after that many transitions. */
  lemma {:induction false} AllRowsByState(patterns: seq<Row>, segmentsX: nat, segmentsY: nat, s: State, row: nat)
    requires 0 <= s.index < |patterns| && row <= segmentsY
    requires AllRows(patterns, segmentsX, segmentsY, s, row).Some?
    decreases segmentsY - row
    ensures forall k :: 0 <= k < segmentsY - row ==>
      && !Raises(Steps(s, patterns, k), segmentsX)
      && AllRows(patterns, segmentsX, segmentsY, s, row).value[k] == QuiltRowTiles(Steps(s, patterns, k).current.tiles, segmentsX)
  {
    AllRowsSucceeds(patterns, segmentsX, segmentsY, s, row);
    if row < segmentsY {
      var s' := NextState(s, patterns);
      var rest := AllRows(patterns, segmentsX, segmentsY, s', row + 1);
      AllRowsByState(patterns, segmentsX, segmentsY, s', row + 1);
      var all := AllRows(patterns, segmentsX, segmentsY, s, row).value;
      assert all == [QuiltRowTiles(s.current.tiles, segmentsX)] + rest.value;
      forall k | 0 < k < segmentsY - row
        ensures !Raises(Steps(s, patterns, k), segmentsX)
        ensures all[k] == QuiltRowTiles(Steps(s, patterns, k).current.tiles, segmentsX)
      {
        StepsShift(s, patterns, k - 1);
        assert all[k] == rest.value[k - 1];
      }
    }
  }

  /** Row `k` of the blanket is the fill of the state in force at row `k`. */
  lemma BlanketByRow(patterns: seq<Row>, segmentsX: nat, segmentsY: nat)
    requires 0 < |patterns|
    ensures Blanket(patterns, segmentsX, segmentsY).Some? <==> NoneRaise(Initial(patterns), patterns, segmentsX, segmentsY)
    ensures Blanket(patterns, segmentsX, segmentsY).Some? ==>
      |Blanket(patterns, segmentsX, segmentsY).value| == segmentsY &&
      forall k :: 0 <= k < segmentsY ==>
        Blanket(patterns, segmentsX, segmentsY).value[k] == QuiltRowTiles(StateAt(patterns, k).current.tiles, segmentsX)
  {
    AllRowsSucceeds(patterns, segmentsX, segmentsY, Initial(patterns), 0);
    if Blanket(patterns, segmentsX, segmentsY).Some? {
      AllRowsByState(patterns, segmentsX, segmentsY, Initial(patterns), 0);
    }
  }

  /**
   * What holds of every state reached from the first template entry: the index is
   * valid, a reset counter sits on a template entry, and a derived row belongs to
   * a deriving entry with the remaining span recorded.
   */
  predicate Reachable(s: State, patterns: seq<Row>)
  {
    && 0 <= s.index < |patterns|
    && 0 <= s.inCurrent
    && (s.inCurrent == 0 ==> s.current == patterns[s.index])
    && (s.current == patterns[s.index]
        || (&& s.current.useRelated
            && patterns[s.index].useRelated
            && 0 < s.inCurrent
            && s.current.rows == patterns[s.index].rows - s.inCurrent))
  }

  lemma NextStateReachable(s: State, patterns: seq<Row>)
    requires Reachable(s, patterns)
    ensures Reachable(NextState(s, patterns), patterns)
  {
  }

  lemma {:induction false} StateAtReachable(patterns: seq<Row>, k: nat)
    requires 0 < |patterns|
    ensures Reachable(StateAt(patterns, k), patterns)
  {
    if k > 0 {
      StateAtReachable(patterns, k - 1);
      NextStateReachable(StateAt(patterns, k - 1), patterns);
    }
  }

  /** Every template entry has tiles, and an entry that derives leaves some identifier unused. */
  predicate WellFormed(patterns: seq<Row>)
  {
    forall i :: 0 <= i < |patterns| ==>
      0 < |patterns[i].tiles| && (patterns[i].useRelated ==> exists t :: t !in patterns[i].tiles)
  }

  /** The current row never has an empty cycle, and a deriving row leaves some identifier unused. */
  predicate Fillable(s: State)
  {
    0 < |s.current.tiles| && (s.current.useRelated ==> exists t :: t !in s.current.tiles)
  }

  lemma NextStateFillable(s: State, patterns: seq<Row>)
    requires WellFormed(patterns) && 0 <= s.index < |patterns| && Fillable(s)
    ensures Fillable(NextState(s, patterns))
  {
    var n := s.inCurrent + 1;
    if n < s.current.rows && s.current.useRelated {
      var d := RelatedRow(s.current);
      RelatedRowShape(s.current);
      UnusedMembers(s.current.tiles);
      var t0 := s.current.tiles[0];
      assert t0 !in d.tiles;
      var u :| u !in s.current.tiles;
      assert u in Unused(s.current.tiles);
    }
  }

  lemma {:induction false} StateAtFillable(patterns: seq<Row>, k: nat)
    requires 0 < |patterns| && WellFormed(patterns)
    ensures Fillable(StateAt(patterns, k))
  {
    if k > 0 {
      StateAtFillable(patterns, k - 1);
      NextStateFillable(StateAt(patterns, k - 1), patterns);
    }
  }

  /** A well-formed template never makes generation raise, whatever the grid size. */
  lemma WellFormedSucceeds(patterns: seq<Row>, segmentsX: nat, segmentsY: nat)
    requires 0 < |patterns| && WellFormed(patterns)
    ensures Blanket(patterns, segmentsX, segmentsY).Some?
  {
    forall k: nat | k < segmentsY ensures !Raises(Steps(Initial(patterns), patterns, k), segmentsX) {
      StateAtFillable(patterns, k);
    }
    assert NoneRaise(Initial(patterns), patterns, segmentsX, segmentsY);
    BlanketByRow(patterns, segmentsX, segmentsY);
  }

  /** A deriving entry that uses all six identifiers derives an empty row, on which the next fill raises. */
  lemma ExhaustedDerivationRaises()
    ensures Blanket([Row(AllTiles, true, true, 2)], 1, 2).None?
  {
    var p := [Row(AllTiles, true, true, 2)];
    AllTilesEnumerates();
    assert Unused(AllTiles) == [] by {
      if Unused(AllTiles) != [] {
        assert false;
      }
    }
    var s1 := NextState(Initial(p), p);
    assert s1.current.tiles == [];
    assert AllRows(p, 1, 2, s1, 1) == None;
  }

  /** A template entry that does not derive governs `rows` consecutive rows (at least one). */
  lemma {:induction false} PlainSpan(patterns: seq<Row>, i: nat, m: nat)
    requires i < |patterns| && !patterns[i].useRelated
    requires m < patterns[i].rows || m == 0
    ensures Steps(State(patterns[i], i, 0), patterns, m) == State(patterns[i], i, m)
  {
    if m > 0 {
      PlainSpan(patterns, i, m - 1);
    }
  }

  lemma PlainSpanEnd(patterns: seq<Row>, i: nat)
    requires i < |patterns| && !patterns[i].useRelated
    ensures var k := if patterns[i].rows < 1 then 1 else patterns[i].rows;
      var j := (i + 1) % |patterns|;
      Steps(State(patterns[i], i, 0), patterns, k) == State(patterns[j], j, 0)
  {
    var k := if patterns[i].rows < 1 then 1 else patterns[i].rows;
    PlainSpan(patterns, i, k - 1);
  }

  /**
   * As written, a deriving template entry with span `k >= 2` governs only
   * `k / 2 + 1` rows: the counter of rows emitted is compared against the
   * derived row's remaining span. While it lasts, every row is derived and
   * records the span that remains.
   */
  lemma {:induction false} RelatedSpan(patterns: seq<Row>, i: nat, m: nat)
    requires i < |patterns| && patterns[i].useRelated && 2 <= patterns[i].rows
    requires 0 < m <= patterns[i].rows / 2
    ensures var s := Steps(State(patterns[i], i, 0), patterns, m);
      s.index == i && s.inCurrent == m && s.current.useRelated && s.current.rows == patterns[i].rows - m
  {
    if m > 1 {
      RelatedSpan(patterns, i, m - 1);
    }
  }

  lemma RelatedSpanEnd(patterns: seq<Row>, i: nat)
    requires i < |patterns| && patterns[i].useRelated && 2 <= patterns[i].rows
    ensures var j := (i + 1) % |patterns|;
      Steps(State(patterns[i], i, 0), patterns, patterns[i].rows / 2 + 1) == State(patterns[j], j, 0)
  {
    RelatedSpan(patterns, i, patterns[i].rows / 2);
    StepsMove(State(patterns[i], i, 0), patterns, patterns[i].rows / 2, i);
  }

  /** `blanket_quilts[0]`, as values. */
  const ShippedTemplate: seq<Row> := [
    Row([A, B], true, true, 2),
    Row([C, D, E], true, false, 1),
    Row([E], true, false, 1)
  ]

  /** The identifiers a row of `A` and `B` leaves unused. */
  lemma UnusedAB()
    ensures Unused([A, B]) == [C, D, E, F]
  {
  }

  /** The rows the shipped template fills on a 3-wide grid. */
  lemma ShippedRowFills()
    ensures QuiltRowTiles([A, B], 3) == [A, B, A]
    ensures QuiltRowTiles([C, D], 3) == [C, D, C]
    ensures QuiltRowTiles([C, D, E], 3) == [C, D, E]
    ensures QuiltRowTiles([E], 3) == [E, E, E]
  {
    QuiltRowPeriodic([A, B], 3, 0);
    QuiltRowPeriodic([C, D], 3, 0);
    QuiltRowPeriodic([E], 3, 0);
    QuiltRowPeriodic([E], 3, 1);
  }

  /** One row of the recursion: the current fill, then the rest. */
  lemma AllRowsStep(patterns: seq<Row>, segmentsX: nat, segmentsY: nat, s: State, row: nat, next: State, rest: seq<seq<TileType>>)
    requires 0 <= s.index < |patterns| && row < segmentsY && !Raises(s, segmentsX)
    requires NextState(s, patterns) == next
    requires AllRows(patterns, segmentsX, segmentsY, next, row + 1) == Some(rest)
    ensures AllRows(patterns, segmentsX, segmentsY, s, row) == Some([QuiltRowTiles(s.current.tiles, segmentsX)] + rest)
  {
  }

  /** One step of the recursion past a row that does not raise. */
  lemma AllRowsUnfold(patterns: seq<Row>, segmentsX: nat, segmentsY: nat, s: State, row: nat)
    requires 0 <= s.index < |patterns| && row < segmentsY && !Raises(s, segmentsX)
    ensures var rest := AllRows(patterns, segmentsX, segmentsY, NextState(s, patterns), row + 1);
      var all := AllRows(patterns, segmentsX, segmentsY, s, row);
      && (all.Some? <==> rest.Some?)
      && (all.Some? ==> all.value[0] == QuiltRowTiles(s.current.tiles, segmentsX)
                        && forall k :: 0 < k < |all.value| ==> all.value[k] == rest.value[k - 1])
  {
  }

  /** A grid holding the fill of `s` at `row` and the recursion's rows after it holds the recursion's rows from `row`. */
  lemma RowsPlaced(pattern: array2<TileType>, patterns: seq<Row>, segmentsX: nat, segmentsY: nat, s: State, row: nat)
    requires pattern.Length0 == segmentsY && pattern.Length1 == segmentsX
    requires 0 <= s.index < |patterns| && row < segmentsY && !Raises(s, segmentsX)
    requires forall j :: 0 <= j < segmentsX ==> pattern[row, j] == QuiltRowTiles(s.current.tiles, segmentsX)[j]
    requires var rest := AllRows(patterns, segmentsX, segmentsY, NextState(s, patterns), row + 1);
      rest.Some? ==> forall i, j :: row + 1 <= i < segmentsY && 0 <= j < segmentsX ==> pattern[i, j] == rest.value[i - row - 1][j]
    ensures var all := AllRows(patterns, segmentsX, segmentsY, s, row);
      && (all.Some? <==> AllRows(patterns, segmentsX, segmentsY, NextState(s, patterns), row + 1).Some?)
      && (all.Some? ==> forall i, j :: row <= i < segmentsY && 0 <= j < segmentsX ==> pattern[i, j] == all.value[i - row][j])
  {
    AllRowsUnfold(patterns, segmentsX, segmentsY, s, row);
    var rest := AllRows(patterns, segmentsX, segmentsY, NextState(s, patterns), row + 1);
    var all := AllRows(patterns, segmentsX, segmentsY, s, row);
    if all.Some? {
      forall i, j | row <= i < segmentsY && 0 <= j < segmentsX ensures pattern[i, j] == all.value[i - row][j] {
        if i == row {
          assert all.value[0] == QuiltRowTiles(s.current.tiles, segmentsX);
        } else {
          assert all.value[i - row] == rest.value[i - row - 1];
        }
      }
    }
  }

  /** Rows already filled, in front of the rows the recursion still produces (None stays None). */
  function Prepend(done: seq<seq<TileType>>, rest: Option<seq<seq<TileType>>>): (r: Option<seq<seq<TileType>>>)
    ensures r.Some? <==> rest.Some?
    ensures r.Some? ==> |r.value| == |done| + |rest.value| && r.value[..|done|] == done && r.value[|done|..] == rest.value
  {
    match rest
    case None => None
    case Some(rows) => Some(done + rows)
  }

  /** Filling one more row moves it from the recursion's share into the filled rows. */
  lemma AllRowsPrepend(patterns: seq<Row>, segmentsX: nat, segmentsY: nat, s: State, row: nat, done: seq<seq<TileType>>)
    requires 0 <= s.index < |patterns| && row < segmentsY && !Raises(s, segmentsX)
    ensures Prepend(done, AllRows(patterns, segmentsX, segmentsY, s, row))
         == Prepend(done + [QuiltRowTiles(s.current.tiles, segmentsX)], AllRows(patterns, segmentsX, segmentsY, NextState(s, patterns), row + 1))
  {
    var line := QuiltRowTiles(s.current.tiles, segmentsX);
    match AllRows(patterns, segmentsX, segmentsY, NextState(s, patterns), row + 1)
    case None =>
    case Some(rest) =>
      assert done + ([line] + rest) == (done + [line]) + rest;
  }

  /** The row the shipped template derives from its first entry. */
  lemma ShippedDerivation()
    ensures RelatedRow(ShippedTemplate[0]) == Row([C, D], true, false, 1)
  {
    UnusedAB();
    assert [C, D, E, F][..2] == [C, D];
  }

  /* The lemmas below take the shipped template as a parameter `p` equal to `ShippedTemplate`, so that the constant is not unfolded. */

  /** After its first row the shipped template is on the derived row. */
  lemma ShippedDerivedState(p: seq<Row>)
    requires p == ShippedTemplate
    ensures NextState(Initial(p), p) == State(Row([C, D], true, true, 1), 0, 1)
  {
    ShippedDerivation();
  }

  /** After the derived row the shipped template visits its second and third entries. */
  lemma ShippedEntryStates(p: seq<Row>)
    requires p == ShippedTemplate
    ensures NextState(State(Row([C, D], true, true, 1), 0, 1), p) == State(p[1], 1, 0)
    ensures NextState(State(p[1], 1, 0), p) == State(p[2], 2, 0)
  {
  }

  /** The last row of the shipped blanket is filled by its third entry. */
  lemma ShippedLastRow(p: seq<Row>)
    requires p == ShippedTemplate
    ensures AllRows(p, 3, 4, State(p[2], 2, 0), 3) == Some([QuiltRowTiles([E], 3)])
  {
    AllRowsStep(p, 3, 4, State(p[2], 2, 0), 3, NextState(State(p[2], 2, 0), p), []);
    assert [QuiltRowTiles([E], 3)] + [] == [QuiltRowTiles([E], 3)];
  }

  /** The last two rows: the second entry, then the third. */
  lemma ShippedLastTwoRows(p: seq<Row>)
    requires p == ShippedTemplate
    ensures AllRows(p, 3, 4, State(p[1], 1, 0), 2) == Some([QuiltRowTiles([C, D, E], 3), QuiltRowTiles([E], 3)])
  {
    ShippedEntryStates(p);
    ShippedLastRow(p);
    AllRowsStep(p, 3, 4, State(p[1], 1, 0), 2, State(p[2], 2, 0), [QuiltRowTiles([E], 3)]);
    assert p[1].tiles == [C, D, E];
    assert [QuiltRowTiles([C, D, E], 3)] + [QuiltRowTiles([E], 3)] == [QuiltRowTiles([C, D, E], 3), QuiltRowTiles([E], 3)];
  }

  /** The last three rows: the derived row, then the second and third entries. */
  lemma ShippedLastThreeRows(p: seq<Row>)
    requires p == ShippedTemplate
    ensures AllRows(p, 3, 4, State(Row([C, D], true, true, 1), 0, 1), 1)
         == Some([QuiltRowTiles([C, D], 3), QuiltRowTiles([C, D, E], 3), QuiltRowTiles([E], 3)])
  {
    ShippedEntryStates(p);
    ShippedLastTwoRows(p);
    AllRowsStep(p, 3, 4, State(Row([C, D], true, true, 1), 0, 1), 1, State(p[1], 1, 0), [QuiltRowTiles([C, D, E], 3), QuiltRowTiles([E], 3)]);
    assert [QuiltRowTiles([C, D], 3)] + [QuiltRowTiles([C, D, E], 3), QuiltRowTiles([E], 3)]
        == [QuiltRowTiles([C, D], 3), QuiltRowTiles([C, D, E], 3), QuiltRowTiles([E], 3)];
  }

  /** The blanket is the first entry's fill followed by the rows generated from the next state. */
  lemma BlanketFirstRow(patterns: seq<Row>, segmentsX: nat, segmentsY: nat, next: State, rest: seq<seq<TileType>>)
    requires 0 < |patterns| && 0 < segmentsY && !Raises(Initial(patterns), segmentsX)
    requires NextState(Initial(patterns), patterns) == next
    requires AllRows(patterns, segmentsX, segmentsY, next, 1) == Some(rest)
    ensures Blanket(patterns, segmentsX, segmentsY) == Some([QuiltRowTiles(patterns[0].tiles, segmentsX)] + rest)
  {
    AllRowsStep(patterns, segmentsX, segmentsY, Initial(patterns), 0, next, rest);
  }

  /** The shipped blanket, for a name of the shipped template. */
  lemma ShippedRows(p: seq<Row>)
    requires p == ShippedTemplate
    ensures Blanket(p, 3, 4) == Some([[A, B, A], [C, D, C], [C, D, E], [E, E, E]])
  {
    var rest := [QuiltRowTiles([C, D], 3), QuiltRowTiles([C, D, E], 3), QuiltRowTiles([E], 3)];
    ShippedDerivedState(p);
    ShippedLastThreeRows(p);
    BlanketFirstRow(p, 3, 4, State(Row([C, D], true, true, 1), 0, 1), rest);
    ShippedRowFills();
    assert p[0].tiles == [A, B];
    assert [QuiltRowTiles([A, B], 3)] + rest == [[A, B, A], [C, D, C], [C, D, E], [E, E, E]];
  }

  /** The shipped template with the default 3 x 4 grid. */
  lemma ShippedBlanket()
    ensures Blanket(ShippedTemplate, 3, 4) == Some([[A, B, A], [C, D, C], [C, D, E], [E, E, E]])
  {
    ShippedRows(ShippedTemplate);
  }

  /** A row pattern object. Template objects are built once; derived ones are fresh. */
  class QuiltRow {
    var tiles: seq<TileType>
    var repeat: bool
    var useRelated: bool
    var rows: int

    constructor (tiles: seq<TileType>, repeat: bool := true, useRelated: bool := false, rows: int := 1)
      ensures Value() == Row(tiles, repeat, useRelated, rows)
    {
      this.tiles := tiles;
      this.repeat := repeat;
      this.useRelated := useRelated;
      this.rows := rows;
    }

    function Value(): Row
      reads this
    {
      Row(tiles, repeat, useRelated, rows)
    }
  }

  /** The values of a list of row objects. */
  function Values(ps: seq<QuiltRow>): (vs: seq<Row>)
    reads ps
    ensures |vs| == |ps| && forall i :: 0 <= i < |ps| ==> vs[i] == ps[i].Value()
  {
    if ps == [] then [] else [ps[0].Value()] + Values(ps[1..])
  }

  /** `blanket_quilts`: the module-level list of templates. */
  method BlanketQuilts() returns (quilts: seq<seq<QuiltRow>>)
    ensures |quilts| == 1 && Values(quilts[0]) == ShippedTemplate
    ensures forall i :: 0 <= i < |quilts[0]| ==> fresh(quilts[0][i])
  {
    var diagonal := new QuiltRow([A, B], useRelated := true, rows := 2);
    var triple := new QuiltRow([C, D, E], rows := 1);
    var solid := new QuiltRow([E]);
    quilts := [[diagonal, triple, solid]];
  }

  /** `_get_related_quilt_row`: a fresh object; `prev` is not touched. */
  method GetRelatedQuiltRow(prev: QuiltRow) returns (r: QuiltRow)
    ensures fresh(r) && r.Value() == RelatedRow(prev.Value())
  {
    var unused := Unused(prev.tiles);
    r := new QuiltRow(Take(unused, |prev.tiles|), prev.repeat);
  }

  /**
   * `_get_next_pattern_state`. Only a freshly derived object is written, so no
   * template object changes (the method modifies nothing that existed before).
   */
  method GetNextPatternState(current: QuiltRow, patterns: seq<QuiltRow>, patternIndex: int, rowsInCurrent: int)
    returns (next: QuiltRow, newIndex: int, newRows: int)
    requires 0 <= patternIndex < |patterns|
    ensures State(next.Value(), newIndex, newRows)
         == NextState(State(current.Value(), patternIndex, rowsInCurrent), Values(patterns))
    ensures next == current || next == patterns[newIndex] || fresh(next)
  {
    newRows := rowsInCurrent + 1;
    newIndex := patternIndex;
    next := current;
    if newRows >= current.rows {
      newRows := 0;
      newIndex := (patternIndex + 1) % |patterns|;
      next := patterns[newIndex];
    } else if current.useRelated {
      next := GetRelatedQuiltRow(current);
      next.useRelated := true;
      next.rows := patterns[patternIndex].rows - newRows;
    }
  }

  /** `pattern[row] = line`: row `row` becomes `line`, every other row is kept. */
  method FillRow(pattern: array2<TileType>, row: nat, line: seq<TileType>)
    requires row < pattern.Length0 && |line| == pattern.Length1
    modifies pattern
    ensures forall j :: 0 <= j < pattern.Length1 ==> pattern[row, j] == line[j]
    ensures forall i, j :: 0 <= i < pattern.Length0 && i != row && 0 <= j < pattern.Length1 ==> pattern[i, j] == old(pattern[i, j])
  {
    forall j | 0 <= j < pattern.Length1 {
      pattern[row, j] := line[j];
    }
  }

  /**
   * The recursive closure `_generate_all_rows`: writes rows `row ..` of `pattern`
   * and leaves the rows before `row` alone; `ok` is false where the source raises.
   */
  method GenerateAllRows(pattern: array2<TileType>, patterns: seq<QuiltRow>, segmentsX: nat, segmentsY: nat,
                         current: QuiltRow, patternIndex: int, rowsInCurrent: int, row: nat,
                         ghost templates: seq<Row>, ghost state: State)
    returns (ok: bool)
    requires pattern.Length0 == segmentsY && pattern.Length1 == segmentsX
    requires 0 <= patternIndex < |patterns| && row <= segmentsY
    requires templates == Values(patterns) && state == State(current.Value(), patternIndex, rowsInCurrent)
    modifies pattern
    decreases segmentsY - row
    ensures var spec := AllRows(templates, segmentsX, segmentsY, state, row);
      && ok == spec.Some?
      && (ok ==> forall i, j :: row <= i < segmentsY && 0 <= j < segmentsX ==> pattern[i, j] == spec.value[i - row][j])
    ensures forall i, j :: 0 <= i < row && 0 <= j < segmentsX ==> pattern[i, j] == old(pattern[i, j])
  {
    if row >= segmentsY {
      return true;
    }
    if |current.tiles| == 0 && segmentsX > 0 {
      return false;
    }
    FillRow(pattern, row, QuiltRowTiles(current.tiles, segmentsX));
    var nextPattern, nextIndex, nextRows := GetNextPatternState(current, patterns, patternIndex, rowsInCurrent);
    ghost var next := State(nextPattern.Value(), nextIndex, nextRows);
    ok := GenerateAllRows(pattern, patterns, segmentsX, segmentsY, nextPattern, nextIndex, nextRows, row + 1, templates, next);
    RowsPlaced(pattern, templates, segmentsX, segmentsY, state, row);
  }

  /**
   * `generate_blanket`. `choice` is the index `random.choice` picks in `quilts`;
   * the result is None where the source raises.
   */
  method GenerateBlanket(quilts: seq<seq<QuiltRow>>, choice: nat, segmentsX: nat := 3, segmentsY: nat := 4)
    returns (r: Option<array2<TileType>>)
    requires choice < |quilts|
    ensures |quilts[choice]| == 0 ==> r.None?
    ensures 0 < |quilts[choice]| ==>
      var spec := Blanket(Values(quilts[choice]), segmentsX, segmentsY);
      && (r.Some? <==> spec.Some?)
      && (r.Some? ==>
            && fresh(r.value)
            && r.value.Length0 == segmentsY && r.value.Length1 == segmentsX
            && forall i, j :: 0 <= i < segmentsY && 0 <= j < segmentsX ==> r.value[i, j] == spec.value[i][j])
  {
    var patterns := quilts[choice];
    if |patterns| == 0 {
      return None;
    }
    var pattern := new TileType[segmentsY, segmentsX];
    var ok := GenerateAllRows(pattern, patterns, segmentsX, segmentsY, patterns[0], 0, 0, 0, Values(patterns), Initial(Values(patterns)));
    r := if ok then Some(pattern) else None;
  }
}
