/** Table grids: the occupancy loops of `assert_table_grid_complete` and `_valid_table`, and
    what a complete grid is, stated by coordinates and by areas. */
module TableGrid {

  /** Half-open row and column ranges of one cell. */
  datatype Span = Span(startRow: nat, endRow: nat, startColumn: nat, endColumn: nat)

  type Coordinate = (int, int)

  predicate Covers(span: Span, row: int, column: int) {
    span.startRow <= row < span.endRow && span.startColumn <= column < span.endColumn
  }

  ghost predicate Disjoint(a: Span, b: Span) {
    forall row: int, column: int :: Covers(a, row, column) ==> !Covers(b, row, column)
  }

  ghost predicate Apart(spans: seq<Span>) {
    forall i, j :: 0 <= i < j < |spans| ==> Disjoint(spans[i], spans[j])
  }

  predicate InGrid(rows: nat, columns: nat, row: int, column: int) {
    0 <= row < rows && 0 <= column < columns
  }

  /** Every grid coordinate lies in exactly one cell, and no cell reaches outside the grid. */
  ghost predicate Tiles(rows: nat, columns: nat, spans: seq<Span>) {
    && (forall row, column :: InGrid(rows, columns, row, column) ==>
          exists i :: 0 <= i < |spans| && Covers(spans[i], row, column)
                      && forall j :: 0 <= j < |spans| && Covers(spans[j], row, column) ==> j == i)
    && (forall i, row, column :: 0 <= i < |spans| && Covers(spans[i], row, column) ==> InGrid(rows, columns, row, column))
  }

  // ---------- coordinate sets ----------

  function Box(span: Span): set<Coordinate> {
    set row, column | span.startRow <= row < span.endRow && span.startColumn <= column < span.endColumn :: (row, column)
  }

  function Grid(rows: nat, columns: nat): set<Coordinate> {
    Box(Span(0, rows, 0, columns))
  }

  function Covered(spans: seq<Span>): set<Coordinate> {
    if spans == [] then {} else Covered(spans[..|spans| - 1]) + Box(spans[|spans| - 1])
  }

  lemma {:induction false} CoveredBy(spans: seq<Span>, row: int, column: int)
    ensures (row, column) in Covered(spans) <==> exists i :: 0 <= i < |spans| && Covers(spans[i], row, column)
  {
    if spans != [] {
      var n := |spans| - 1;
      CoveredBy(spans[..n], row, column);
      if i :| 0 <= i < |spans| && Covers(spans[i], row, column) {
        if i < n { assert Covers(spans[..n][i], row, column); }
      }
    }
  }

  /** Being apart, with the last cell taken off. */
  lemma ApartStep(spans: seq<Span>, last: Span)
    ensures Apart(spans + [last]) <==> Apart(spans) && Covered(spans) !! Box(last)
    ensures Covered(spans + [last]) == Covered(spans) + Box(last)
  {
    var all := spans + [last];
    assert all[..|spans|] == spans;
    if Apart(all) {
      forall i, j | 0 <= i < j < |spans| ensures Disjoint(spans[i], spans[j]) {
        assert Disjoint(all[i], all[j]);
      }
      forall c | c in Covered(spans) ensures c !in Box(last) {
        CoveredBy(spans, c.0, c.1);
        var i :| 0 <= i < |spans| && Covers(spans[i], c.0, c.1);
        assert Disjoint(all[i], all[|spans|]);
      }
    }
    if Apart(spans) && Covered(spans) !! Box(last) {
      forall i, j | 0 <= i < j < |all| ensures Disjoint(all[i], all[j]) {
        if j == |spans| {
          forall row: int, column: int | Covers(all[i], row, column) ensures !Covers(last, row, column) {
            CoveredBy(spans, row, column);
          }
        } else {
          assert Disjoint(spans[i], spans[j]);
        }
      }
    }
  }

  /** Tiling, by sets. */
  lemma TilesBySets(rows: nat, columns: nat, spans: seq<Span>)
    ensures Tiles(rows, columns, spans) <==> Apart(spans) && Covered(spans) == Grid(rows, columns)
  {
    if Tiles(rows, columns, spans) {
      forall i, j | 0 <= i < j < |spans| ensures Disjoint(spans[i], spans[j]) {
        forall row: int, column: int | Covers(spans[i], row, column) ensures !Covers(spans[j], row, column) {
          assert InGrid(rows, columns, row, column);
        }
      }
      forall c | c in Covered(spans) ensures c in Grid(rows, columns) {
        CoveredBy(spans, c.0, c.1);
        var i :| 0 <= i < |spans| && Covers(spans[i], c.0, c.1);
        assert InGrid(rows, columns, c.0, c.1);
      }
      forall c | c in Grid(rows, columns) ensures c in Covered(spans) {
        assert InGrid(rows, columns, c.0, c.1);
        CoveredBy(spans, c.0, c.1);
      }
    }
    if Apart(spans) && Covered(spans) == Grid(rows, columns) {
      forall row, column | InGrid(rows, columns, row, column)
        ensures exists i :: 0 <= i < |spans| && Covers(spans[i], row, column)
                            && forall j :: 0 <= j < |spans| && Covers(spans[j], row, column) ==> j == i
      {
        assert (row, column) in Grid(rows, columns);
        CoveredBy(spans, row, column);
        var i :| 0 <= i < |spans| && Covers(spans[i], row, column);
        assert forall j :: 0 <= j < |spans| && Covers(spans[j], row, column) ==> j == i by {
          assert forall k, l :: 0 <= k < l < |spans| ==> Disjoint(spans[k], spans[l]);
        }
      }
      forall i, row, column | 0 <= i < |spans| && Covers(spans[i], row, column)
        ensures InGrid(rows, columns, row, column)
      {
        CoveredBy(spans, row, column);
        assert (row, column) in Grid(rows, columns);
      }
    }
  }

  // ---------- areas ----------

  function Extent(low: nat, high: nat): nat {
    if low < high then high - low else 0
  }

  function Area(span: Span): nat {
    Extent(span.startRow, span.endRow) * Extent(span.startColumn, span.endColumn)
  }

  function TotalArea(spans: seq<Span>): nat {
    if spans == [] then 0 else TotalArea(spans[..|spans| - 1]) + Area(spans[|spans| - 1])
  }

  lemma {:induction false} StripSize(row: nat, low: nat, high: nat)
    ensures |Box(Span(row, row + 1, low, high))| == Extent(low, high)
    decreases high
  {
    var strip := Box(Span(row, row + 1, low, high));
    if high <= low {
      assert strip == {};
    } else {
      StripSize(row, low, high - 1);
      assert strip == Box(Span(row, row + 1, low, high - 1)) + {(row, high - 1)};
    }
  }

  lemma BoxByRows(span: Span)
    requires span.startRow < span.endRow
    ensures |Box(span)| == |Box(span.(endRow := span.endRow - 1))| + Extent(span.startColumn, span.endColumn)
  {
    var above := span.(endRow := span.endRow - 1);
    var strip := Span(span.endRow - 1, span.endRow, span.startColumn, span.endColumn);
    StripSize(span.endRow - 1, span.startColumn, span.endColumn);
    assert Box(span) == Box(above) + Box(strip);
    assert Box(above) !! Box(strip);
  }

  lemma {:induction false} BoxSize(span: Span)
    ensures |Box(span)| == Area(span)
    decreases span.endRow
  {
    if span.endRow <= span.startRow {
      assert Box(span) == {};
    } else {
      var above := span.(endRow := span.endRow - 1);
      BoxByRows(span);
      BoxSize(above);
      var height := Extent(above.startRow, above.endRow);
      var width := Extent(span.startColumn, span.endColumn);
      assert (height + 1) * width == height * width + width;
    }
  }

  lemma {:induction false} CoveredSize(spans: seq<Span>)
    ensures |Covered(spans)| <= TotalArea(spans)
    ensures Apart(spans) ==> |Covered(spans)| == TotalArea(spans)
  {
    if spans != [] {
      var n := |spans| - 1;
      CoveredSize(spans[..n]);
      BoxSize(spans[n]);
      ApartStep(spans[..n], spans[n]);
      assert spans == spans[..n] + [spans[n]];
      assert |Covered(spans[..n]) + Box(spans[n])| ==
             |Covered(spans[..n])| + |Box(spans[n])| - |Covered(spans[..n]) * Box(spans[n])|;
    }
  }

  lemma SubsetOfSameSize(a: set<Coordinate>, b: set<Coordinate>)
    requires a <= b && |a| == |b|
    ensures a == b
  {
    assert |b - a| == |b| - |a|;
  }

  /** Each coordinate lies in exactly one cell exactly when the cells stay inside the grid,
      are pairwise disjoint, and their areas add up to the grid's. */
  lemma TilesByAreas(rows: nat, columns: nat, spans: seq<Span>)
    ensures Tiles(rows, columns, spans) <==>
              && Apart(spans)
              && TotalArea(spans) == rows * columns
              && forall i, row, column :: 0 <= i < |spans| && Covers(spans[i], row, column) ==>
                                            InGrid(rows, columns, row, column)
  {
    TilesBySets(rows, columns, spans);
    CoveredSize(spans);
    BoxSize(Span(0, rows, 0, columns));
    if Apart(spans) && TotalArea(spans) == rows * columns
       && forall i, row, column :: 0 <= i < |spans| && Covers(spans[i], row, column) ==> InGrid(rows, columns, row, column)
    {
      forall c | c in Covered(spans) ensures c in Grid(rows, columns) {
        CoveredBy(spans, c.0, c.1);
        var i :| 0 <= i < |spans| && Covers(spans[i], c.0, c.1);
        assert InGrid(rows, columns, c.0, c.1);
      }
      SubsetOfSameSize(Covered(spans), Grid(rows, columns));
    }
  }

  /** Cells of a tiling that are not degenerate start at different coordinates. */
  lemma StartsDiffer(rows: nat, columns: nat, spans: seq<Span>, i: nat, j: nat)
    requires Tiles(rows, columns, spans) && i < j < |spans|
    requires Covers(spans[i], spans[i].startRow, spans[i].startColumn)
    requires Covers(spans[j], spans[j].startRow, spans[j].startColumn)
    ensures (spans[i].startRow, spans[i].startColumn) != (spans[j].startRow, spans[j].startColumn)
    ensures spans[i].startRow < rows && spans[i].startColumn < columns
  {
    TilesBySets(rows, columns, spans);
    assert Disjoint(spans[i], spans[j]);
    assert InGrid(rows, columns, spans[i].startRow, spans[i].startColumn);
  }

  // ---------- the two loops ----------

  datatype GridVerdict = Overlap | NotPartitioned | Complete

  /** The part of a cell's box visited before the scan reaches `row` and `column`. */
  ghost function Visited(span: Span, row: int, column: int): set<Coordinate> {
    set c | c in Box(span) && (c.0 < row || (c.0 == row && c.1 < column))
  }

  lemma VisitedStep(span: Span, row: int, column: int)
    requires span.startRow <= row < span.endRow
    ensures Visited(span, span.startRow, span.startColumn) == {}
    ensures span.startColumn <= column < span.endColumn ==>
              Visited(span, row, column + 1) == Visited(span, row, column) + {(row, column)}
    ensures column >= span.endColumn ==> Visited(span, row + 1, span.startColumn) == Visited(span, row, column)
    ensures Visited(span, span.endRow, span.startColumn) == Box(span)
  {
  }

  /** Marks one cell's coordinates row by row, and stops at the first one that lies outside
      `limit` or is already taken. */
  method Occupy(span: Span, limit: Span, taken: set<Coordinate>) returns (fits: bool, occupied: set<Coordinate>)
    ensures fits <==> taken !! Box(span) && Box(span) <= Box(limit)
    ensures fits ==> occupied == taken + Box(span)
  {
    occupied := taken;
    var row := span.startRow;
    if span.endRow <= span.startRow {
      assert Box(span) == {};
      return true, taken;
    }
    VisitedStep(span, row, 0);
    while row < span.endRow
      invariant span.startRow <= row <= span.endRow
      invariant occupied == taken + Visited(span, row, span.startColumn)
      invariant taken !! Visited(span, row, span.startColumn)
      invariant Visited(span, row, span.startColumn) <= Box(limit)
    {
      var column := span.startColumn;
      while column < span.endColumn
        invariant span.startColumn <= column
        invariant occupied == taken + Visited(span, row, column)
        invariant taken !! Visited(span, row, column)
        invariant Visited(span, row, column) <= Box(limit)
      {
        if !Covers(limit, row, column) || (row, column) in occupied {
          assert (row, column) in Box(span);
          return false, occupied;
        }
        VisitedStep(span, row, column);
        occupied := occupied + {(row, column)};
        column := column + 1;
      }
      VisitedStep(span, row, column);
      row := row + 1;
    }
    fits := true;
  }

  lemma NotApartPrefix(spans: seq<Span>, n: nat)
    requires n <= |spans| && !Apart(spans[..n])
    ensures !Apart(spans)
  {
    var i, j :| 0 <= i < j < n && !Disjoint(spans[..n][i], spans[..n][j]);
    assert !Disjoint(spans[i], spans[j]);
  }

  lemma NoCells()
    ensures Apart([]) && Covered([]) == {}
  {
  }

  lemma GridIsBox(rows: nat, columns: nat)
    ensures Grid(rows, columns) == Box(Span(0, rows, 0, columns))
  {
  }

  /** `assert_table_grid_complete`: a taken coordinate is an overlap; afterwards the occupied
      coordinates must be the grid. */
  method AssertGridComplete(rows: nat, columns: nat, spans: seq<Span>) returns (verdict: GridVerdict)
    ensures verdict == Complete <==> Tiles(rows, columns, spans)
    ensures verdict == Overlap <==> !Apart(spans)
  {
    TilesBySets(rows, columns, spans);
    NoCells();
    hide Box, Apart, Covered, Tiles, Grid;
    var occupied: set<Coordinate> := {};
    for i := 0 to |spans|
      invariant Apart(spans[..i]) && occupied == Covered(spans[..i])
    {
      ApartStep(spans[..i], spans[i]);
      assert spans[..i + 1] == spans[..i] + [spans[i]];
      var fits, after := Occupy(spans[i], spans[i], occupied);
      if !fits {
        NotApartPrefix(spans, i + 1);
        return Overlap;
      }
      occupied := after;
    }
    assert spans[..|spans|] == spans;
    verdict := if occupied == Grid(rows, columns) then Complete else NotPartitioned;
  }

  /** A cell that meets an earlier one or leaves the grid rules a tiling out. */
  lemma ClashMeansNoTiling(rows: nat, columns: nat, spans: seq<Span>, i: nat)
    requires i < |spans|
    requires !(Covered(spans[..i]) !! Box(spans[i])) || !(Box(spans[i]) <= Grid(rows, columns))
    ensures !Tiles(rows, columns, spans)
  {
    if Box(spans[i]) <= Grid(rows, columns) {
      ApartStep(spans[..i], spans[i]);
      assert spans[..i + 1] == spans[..i] + [spans[i]];
      NotApartPrefix(spans, i + 1);
      TilesBySets(rows, columns, spans);
    } else {
      var c :| c in Box(spans[i]) && c !in Grid(rows, columns);
      assert Covers(spans[i], c.0, c.1) && !InGrid(rows, columns, c.0, c.1);
    }
  }

  /** The grid part of `_valid_table`: the same occupancy, also leaving at the first
      coordinate outside the grid. */
  method GridIsValid(rows: nat, columns: nat, spans: seq<Span>) returns (valid: bool)
    ensures valid <==> Tiles(rows, columns, spans)
  {
    NoCells();
    hide Box, Apart, Covered, Tiles, Grid;
    var occupied: set<Coordinate> := {};
    for i := 0 to |spans|
      invariant Apart(spans[..i]) && occupied == Covered(spans[..i])
    {
      var fits, after := Occupy(spans[i], Span(0, rows, 0, columns), occupied);
      GridIsBox(rows, columns);
      if !fits {
        ClashMeansNoTiling(rows, columns, spans, i);
        return false;
      }
      ApartStep(spans[..i], spans[i]);
      assert spans[..i + 1] == spans[..i] + [spans[i]];
      occupied := after;
    }
    assert spans[..|spans|] == spans;
    TilesBySets(rows, columns, spans);
    valid := occupied == Grid(rows, columns);
  }
}
