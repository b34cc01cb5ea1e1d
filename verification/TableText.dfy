/** The characters of a table's text: exactly those of its cells, when no two cells start at the
    same place - which a tiling guarantees. */
module TableText {
  import opened Spacing
  import opened TableGrid
  import opened Canonical

  /** The characters of a text that are not whitespace, with their counts. */
  function Ink(text: string): multiset<char> {
    multiset(Squeeze(text))
  }

  function InkSum(parts: seq<string>): multiset<char> {
    if parts == [] then multiset{} else Ink(parts[0]) + InkSum(parts[1..])
  }

  lemma InkConcat(a: string, b: string)
    ensures Ink(a + b) == Ink(a) + Ink(b)
  {
    SqueezeConcat(a, b);
  }

  lemma NoInk()
    ensures Ink("") == multiset{} && Ink("\t") == multiset{} && Ink("\n") == multiset{}
  {
    SqueezeBlank("");
    SqueezeBlank("\t");
    SqueezeBlank("\n");
  }

  lemma {:induction false} InkOfJoin(separator: string, parts: seq<string>)
    requires Ink(separator) == multiset{}
    ensures Ink(Join(separator, parts)) == InkSum(parts)
  {
    hide Ink;
    if parts == [] {
      NoInk();
    } else if |parts| == 1 {
      assert parts[1..] == [];
    } else {
      InkOfJoin(separator, parts[1..]);
      InkConcat(parts[0] + separator, Join(separator, parts[1..]));
      InkConcat(parts[0], separator);
    }
  }

  lemma {:induction false} InkUpdate(parts: seq<string>, i: nat, text: string)
    requires i < |parts| && Ink(parts[i]) == multiset{}
    ensures InkSum(parts[i := text]) == InkSum(parts) + Ink(text)
  {
    hide Ink;
    var after := parts[i := text];
    if i == 0 {
      assert after[1..] == parts[1..];
    } else {
      InkUpdate(parts[1..], i - 1, text);
      assert after[1..] == parts[1..][i - 1 := text];
    }
  }

  lemma {:induction false} InkReplace(parts: seq<string>, i: nat, text: string, added: multiset<char>)
    requires i < |parts| && Ink(text) == Ink(parts[i]) + added
    ensures InkSum(parts[i := text]) == InkSum(parts) + added
  {
    hide Ink;
    var after := parts[i := text];
    if i == 0 {
      assert after[1..] == parts[1..];
    } else {
      InkReplace(parts[1..], i - 1, text, added);
      assert after[1..] == parts[1..][i - 1 := text];
    }
  }

  lemma {:induction false} InkOfSnoc(parts: seq<string>, last: string)
    ensures InkSum(parts + [last]) == InkSum(parts) + Ink(last)
  {
    hide Ink;
    var all := parts + [last];
    if parts == [] {
      assert all[1..] == [];
    } else {
      InkOfSnoc(parts[1..], last);
      assert all[0] == parts[0] && all[1..] == parts[1..] + [last];
    }
  }

  function GridInk(grid: seq<seq<string>>): multiset<char> {
    Ink(Join("\n", RowTexts(grid)))
  }

  /** Filling a blank place of the grid adds the characters put there. */
  lemma FillInk(grid: seq<seq<string>>, r: nat, c: nat, text: string)
    requires r < |grid| && c < |grid[r]| && grid[r][c] == ""
    ensures GridInk(grid[r := grid[r][c := text]]) == GridInk(grid) + Ink(text)
  {
    hide Ink, Join, InkSum;
    NoInk();
    var after := grid[r := grid[r][c := text]];
    InkUpdate(grid[r], c, text);
    InkOfJoin("\t", grid[r]);
    InkOfJoin("\t", grid[r][c := text]);
    InkReplace(RowTexts(grid), r, Join("\t", grid[r][c := text]), Ink(text));
    assert RowTexts(after) == RowTexts(grid)[r := Join("\t", grid[r][c := text])];
    InkOfJoin("\n", RowTexts(grid));
    InkOfJoin("\n", RowTexts(after));
  }

  function CellTexts(cells: seq<CanonicalCell>): (r: seq<string>)
    ensures |r| == |cells| && forall i :: 0 <= i < |r| ==> r[i] == cells[i].text
  {
    seq(|cells|, i requires 0 <= i < |cells| => cells[i].text)
  }

  predicate DistinctStarts(cells: seq<CanonicalCell>) {
    forall i, j :: 0 <= i < j < |cells| ==> !StartsAt(cells[i], cells[j].span.startRow, cells[j].span.startColumn)
  }

  lemma {:induction false} BlankWhereNoneStarts(cells: seq<CanonicalCell>, r: nat, c: nat)
    requires forall i :: 0 <= i < |cells| ==> !StartsAt(cells[i], r, c)
    ensures TextAt(cells, r, c) == ""
  {
    if cells != [] { BlankWhereNoneStarts(cells[..|cells| - 1], r, c); }
  }

  lemma {:induction false} EmptyInk(parts: seq<string>)
    requires forall i :: 0 <= i < |parts| ==> Ink(parts[i]) == multiset{}
    ensures InkSum(parts) == multiset{}
  {
    hide Ink;
    if parts != [] { EmptyInk(parts[1..]); }
  }

  lemma EmptyTable(rows: nat, columns: nat)
    ensures Ink(PlainText(rows, columns, [])) == multiset{}
  {
    hide Ink, InkSum, Join;
    NoInk();
    var grid := GridOf(rows, columns, []);
    forall k | 0 <= k < rows ensures Ink(RowTexts(grid)[k]) == multiset{} {
      assert grid[k] == RowOf(columns, [], k);
      EmptyInk(grid[k]);
      InkOfJoin("\t", grid[k]);
    }
    EmptyInk(RowTexts(grid));
    InkOfJoin("\n", RowTexts(grid));
  }

  /** With cells starting inside the grid and apart, the table's text has exactly the
      characters of its cells: none is overwritten. */
  lemma {:induction false} TableInk(rows: nat, columns: nat, cells: seq<CanonicalCell>)
    requires StartsInside(rows, columns, cells) && DistinctStarts(cells)
    ensures Ink(PlainText(rows, columns, cells)) == InkSum(CellTexts(cells))
  {
    hide Ink, InkSum, Join, CellTexts;
    if cells == [] {
      EmptyTable(rows, columns);
      assert CellTexts(cells) == [];
      EmptyInk([]);
    } else {
      var n := |cells| - 1;
      var cell := cells[n];
      TableInk(rows, columns, cells[..n]);
      assert cells == cells[..n] + [cell];
      GridStep(rows, columns, cells[..n], cell);
      forall i | 0 <= i < n ensures !StartsAt(cells[..n][i], cell.span.startRow, cell.span.startColumn) {
        assert !StartsAt(cells[i], cells[n].span.startRow, cells[n].span.startColumn);
      }
      BlankWhereNoneStarts(cells[..n], cell.span.startRow, cell.span.startColumn);
      FillInk(GridOf(rows, columns, cells[..n]), cell.span.startRow, cell.span.startColumn, cell.text);
      InkOfSnoc(CellTexts(cells[..n]), cell.text);
      assert CellTexts(cells) == CellTexts(cells[..n]) + [cell.text];
    }
  }

  function SpansOf(cells: seq<CanonicalCell>): (spans: seq<Span>)
    ensures |spans| == |cells| && forall i :: 0 <= i < |spans| ==> spans[i] == cells[i].span
  {
    seq(|cells|, i requires 0 <= i < |cells| => cells[i].span)
  }

  /** A cell's ranges are not empty, as its validator demands. */
  predicate ProperSpan(span: Span) {
    span.startRow < span.endRow && span.startColumn < span.endColumn
  }

  lemma TilesStart(rows: nat, columns: nat, cells: seq<CanonicalCell>)
    requires Tiles(rows, columns, SpansOf(cells))
    requires forall i :: 0 <= i < |cells| ==> ProperSpan(cells[i].span)
    ensures StartsInside(rows, columns, cells) && DistinctStarts(cells)
  {
    var spans := SpansOf(cells);
    forall i | 0 <= i < |cells| ensures cells[i].span.startRow < rows && cells[i].span.startColumn < columns {
      assert Covers(spans[i], spans[i].startRow, spans[i].startColumn);
      assert InGrid(rows, columns, spans[i].startRow, spans[i].startColumn);
    }
    forall i, j | 0 <= i < j < |cells| ensures !StartsAt(cells[i], cells[j].span.startRow, cells[j].span.startColumn) {
      assert Covers(spans[i], spans[i].startRow, spans[i].startColumn);
      assert Covers(spans[j], spans[j].startRow, spans[j].startColumn);
      StartsDiffer(rows, columns, spans, i, j);
    }
  }
}
