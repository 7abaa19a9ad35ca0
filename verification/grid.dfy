/**
 * The designer's grid: a row-major sequence of cells, each optionally
 * holding a frame size and an uploaded image, and the running price.
 */
module Grid {
  import opened Wrappers
  import opened Catalog
  import Decimal
  import Seqs

  /** One grid position. `frame == None` is an empty position. */
  datatype GridCell = GridCell(
    id: string,
    row: nat,
    col: nat,
    frame: Option<FrameSize>,
    imageUrl: Option<string>,
    imageName: Option<string>)

  /** The id of the cell at (`row`, `col`): `"{row}-{col}"`. */
  function CellId(row: nat, col: nat): string {
    Decimal.Render(row) + "-" + Decimal.Render(col)
  }

  function EmptyCell(row: nat, col: nat): GridCell {
    GridCell(CellId(row, col), row, col, None, None, None)
  }

  predicate IsEmpty(cell: GridCell) {
    cell.frame.None? && cell.imageUrl.None? && cell.imageName.None?
  }

  /** Row-major position of (`row`, `col`) in a grid `cols` wide. */
  function CellIndex(row: nat, col: nat, cols: nat): nat {
    row * cols + col
  }

  /** `cells` holds the `rows` by `cols` positions in row-major order, with their ids. */
  ghost predicate IsLayout(cells: seq<GridCell>, rows: nat, cols: nat) {
    && |cells| == rows * cols
    && forall r, c :: 0 <= r < rows && 0 <= c < cols ==>
         && CellIndex(r, c, cols) < |cells|
         && cells[CellIndex(r, c, cols)].id == CellId(r, c)
         && cells[CellIndex(r, c, cols)].row == r
         && cells[CellIndex(r, c, cols)].col == c
  }

  predicate UniqueIds(cells: seq<GridCell>) {
    forall i, j :: 0 <= i < |cells| && 0 <= j < |cells| && i != j ==> cells[i].id != cells[j].id
  }

  /** `b` has the same positions and ids as `a`; only frames and images may differ. */
  predicate SameShape(a: seq<GridCell>, b: seq<GridCell>) {
    && |a| == |b|
    && forall i :: 0 <= i < |a| ==> b[i].id == a[i].id && b[i].row == a[i].row && b[i].col == a[i].col
  }

  // ---------------------------------------------------------------- ids

  /** The position of the first '-' in `s` (or `|s|` when there is none). */
  function FirstDash(s: string): (k: nat)
    ensures k <= |s|
  {
    if |s| == 0 || s[0] == '-' then 0 else 1 + FirstDash(s[1..])
  }

  /** In `"{row}-{col}"` the first dash is the one after the row digits. */
  lemma {:induction false} DashFollowsDigits(a: string, b: string)
    requires Decimal.AllDigits(a)
    ensures FirstDash(a + "-" + b) == |a|
    decreases |a|
  {
    if |a| > 0 {
      assert (a + "-" + b)[1..] == a[1..] + "-" + b;
      DashFollowsDigits(a[1..], b);
    }
  }

  /** Different positions get different ids. */
  lemma CellIdInjective(r1: nat, c1: nat, r2: nat, c2: nat)
    ensures CellId(r1, c1) == CellId(r2, c2) ==> r1 == r2 && c1 == c2
  {
    if CellId(r1, c1) == CellId(r2, c2) {
      var a1, b1 := Decimal.Render(r1), Decimal.Render(c1);
      var a2, b2 := Decimal.Render(r2), Decimal.Render(c2);
      var s := CellId(r1, c1);
      DashFollowsDigits(a1, b1);
      DashFollowsDigits(a2, b2);
      assert a1 == s[..|a1|] == a2;
      assert b1 == s[|a1| + 1..] == b2;
      Decimal.RenderInjective(r1, r2);
      Decimal.RenderInjective(c1, c2);
    }
  }

  // ---------------------------------------------------------------- row-major arithmetic

  lemma IndexInRange(r: nat, c: nat, rows: nat, cols: nat)
    requires r < rows && c < cols
    ensures CellIndex(r, c, cols) < rows * cols
  {
    calc {
      r * cols + c;
    <
      r * cols + cols;
    ==
      (r + 1) * cols;
    <=  { assert r + 1 <= rows; }
      rows * cols;
    }
  }

  lemma IndexDistinct(r1: nat, c1: nat, r2: nat, c2: nat, cols: nat)
    requires c1 < cols && c2 < cols
    requires r1 != r2 || c1 != c2
    ensures CellIndex(r1, c1, cols) != CellIndex(r2, c2, cols)
  {
    if r1 < r2 {
      IndexInRange(r1, c1, r2, cols);
    } else if r2 < r1 {
      IndexInRange(r2, c2, r1, cols);
    }
  }

  lemma IndexCovers(k: nat, rows: nat, cols: nat) returns (r: nat, c: nat)
    requires k < rows * cols
    ensures r < rows && c < cols && k == CellIndex(r, c, cols)
  {
    r, c := k / cols, k % cols;
  }

  // ---------------------------------------------------------------- operations

  /** Every row-major position below `|cells|` already holds its empty cell. */
  ghost predicate PlacedSoFar(cells: seq<GridCell>, cols: nat) {
    forall r, c :: 0 <= c < cols && CellIndex(r, c, cols) < |cells| ==> cells[CellIndex(r, c, cols)] == EmptyCell(r, c)
  }

  lemma PlaceNext(cells: seq<GridCell>, cols: nat, row: nat, col: nat)
    requires col < cols && |cells| == CellIndex(row, col, cols)
    requires PlacedSoFar(cells, cols)
    ensures PlacedSoFar(cells + [EmptyCell(row, col)], cols)
  {
    var next := cells + [EmptyCell(row, col)];
    forall r, c | 0 <= c < cols && CellIndex(r, c, cols) < |next|
      ensures next[CellIndex(r, c, cols)] == EmptyCell(r, c)
    {
      if CellIndex(r, c, cols) == |cells| && (r != row || c != col) {
        IndexDistinct(r, c, row, col, cols);
      }
    }
  }

  /** Appends the empty cells of row `row`, left to right. */
  method PlaceRow(cells: seq<GridCell>, row: nat, cols: nat) returns (next: seq<GridCell>)
    requires |cells| == CellIndex(row, 0, cols)
    requires PlacedSoFar(cells, cols)
    requires forall k :: 0 <= k < |cells| ==> IsEmpty(cells[k])
    ensures |next| == CellIndex(row + 1, 0, cols)
    ensures PlacedSoFar(next, cols)
    ensures forall k :: 0 <= k < |next| ==> IsEmpty(next[k])
  {
    next := cells;
    var col := 0;
    while col < cols
      invariant col <= cols
      invariant |next| == CellIndex(row, col, cols)
      invariant PlacedSoFar(next, cols)
      invariant forall k :: 0 <= k < |next| ==> IsEmpty(next[k])
    {
      PlaceNext(next, cols, row, col);
      next := next + [EmptyCell(row, col)];
      col := col + 1;
    }
    assert CellIndex(row, cols, cols) == CellIndex(row + 1, 0, cols);
  }

  /** A fresh `rows` by `cols` grid: every position present once, in row-major order, all empty. */
  method InitializeCells(rows: nat, cols: nat) returns (cells: seq<GridCell>)
    ensures |cells| == rows * cols
    ensures forall r, c :: 0 <= r < rows && 0 <= c < cols ==>
              CellIndex(r, c, cols) < |cells| && cells[CellIndex(r, c, cols)] == EmptyCell(r, c)
    ensures IsLayout(cells, rows, cols)
    ensures forall k :: 0 <= k < |cells| ==> IsEmpty(cells[k])
  {
    cells := [];
    var row := 0;
    while row < rows
      invariant row <= rows
      invariant |cells| == CellIndex(row, 0, cols)
      invariant PlacedSoFar(cells, cols)
      invariant forall k :: 0 <= k < |cells| ==> IsEmpty(cells[k])
    {
      cells := PlaceRow(cells, row, cols);
      row := row + 1;
    }
    forall r, c | 0 <= r < rows && 0 <= c < cols
      ensures CellIndex(r, c, cols) < |cells|
    {
      IndexInRange(r, c, rows, cols);
    }
  }

  /** Clicking a cell: it takes the selected frame size and keeps its image. */
  function AssignFrame(cells: seq<GridCell>, cellId: string, size: FrameSize): (r: seq<GridCell>)
    ensures SameShape(cells, r)
    ensures forall i :: 0 <= i < |r| && cells[i].id == cellId ==>
              r[i].frame == Some(size) && r[i].imageUrl == cells[i].imageUrl && r[i].imageName == cells[i].imageName
    ensures forall i :: 0 <= i < |r| && cells[i].id != cellId ==> r[i] == cells[i]
  {
    seq(|cells|, i requires 0 <= i < |cells| =>
      if cells[i].id == cellId then cells[i].(frame := Some(size)) else cells[i])
  }

  /** Attaching an uploaded image (its public URL and file name) to a cell; the frame stays. */
  function AttachImage(cells: seq<GridCell>, cellId: string, url: string, name: string): (r: seq<GridCell>)
    ensures SameShape(cells, r)
    ensures forall i :: 0 <= i < |r| && cells[i].id == cellId ==>
              r[i].imageUrl == Some(url) && r[i].imageName == Some(name) && r[i].frame == cells[i].frame
    ensures forall i :: 0 <= i < |r| && cells[i].id != cellId ==> r[i] == cells[i]
  {
    seq(|cells|, i requires 0 <= i < |cells| =>
      if cells[i].id == cellId then cells[i].(imageUrl := Some(url), imageName := Some(name)) else cells[i])
  }

  /** Clearing one cell: its frame and image go, its position stays. */
  function ClearCell(cells: seq<GridCell>, cellId: string): (r: seq<GridCell>)
    ensures SameShape(cells, r)
    ensures forall i :: 0 <= i < |r| && cells[i].id == cellId ==> IsEmpty(r[i])
    ensures forall i :: 0 <= i < |r| && cells[i].id != cellId ==> r[i] == cells[i]
  {
    seq(|cells|, i requires 0 <= i < |cells| =>
      if cells[i].id == cellId then cells[i].(frame := None, imageUrl := None, imageName := None) else cells[i])
  }

  /** Clearing the whole grid: every cell emptied, the layout kept. */
  function ClearAll(cells: seq<GridCell>): (r: seq<GridCell>)
    ensures SameShape(cells, r)
    ensures forall i :: 0 <= i < |r| ==> IsEmpty(r[i])
  {
    seq(|cells|, i requires 0 <= i < |cells| => cells[i].(frame := None, imageUrl := None, imageName := None))
  }

  /** What one cell adds to the total: its frame's price, or nothing. */
  function CellPrice(cell: GridCell): int {
    match cell.frame
    case Some(f) => f.price
    case None => 0
  }

  predicate PricesNonNegative(cells: seq<GridCell>) {
    forall i :: 0 <= i < |cells| ==> CellPrice(cells[i]) >= 0
  }

  /** The design total: a left-to-right sum of the framed cells' prices, in cents. */
  function TotalPrice(cells: seq<GridCell>): (t: int)
    ensures PricesNonNegative(cells) ==> t >= 0
    ensures (forall i :: 0 <= i < |cells| ==> cells[i].frame.None?) ==> t == 0
  {
    if |cells| == 0 then 0
    else TotalPrice(cells[..|cells| - 1]) + CellPrice(cells[|cells| - 1])
  }

  // ---------------------------------------------------------------- lemmas

  /** The initial layout never repeats an id. */
  lemma LayoutIdsUnique(cells: seq<GridCell>, rows: nat, cols: nat)
    requires IsLayout(cells, rows, cols)
    ensures UniqueIds(cells)
  {
    forall i, j | 0 <= i < |cells| && 0 <= j < |cells| && i != j
      ensures cells[i].id != cells[j].id
    {
      var r1, c1 := IndexCovers(i, rows, cols);
      var r2, c2 := IndexCovers(j, rows, cols);
      if r1 == r2 && c1 == c2 {
        assert false;
      }
      CellIdInjective(r1, c1, r2, c2);
    }
  }

  /** The editing operations keep every position and id where it was. */
  lemma SameShapeKeepsLayout(a: seq<GridCell>, b: seq<GridCell>, rows: nat, cols: nat)
    requires IsLayout(a, rows, cols) && SameShape(a, b)
    ensures IsLayout(b, rows, cols) && UniqueIds(b)
  {
    LayoutIdsUnique(b, rows, cols);
  }

  lemma {:induction false} TotalPriceAppend(a: seq<GridCell>, b: seq<GridCell>)
    ensures TotalPrice(a + b) == TotalPrice(a) + TotalPrice(b)
    decreases |b|
  {
    if |b| == 0 {
      assert a + b == a;
    } else {
      var ab := a + b;
      assert ab[..|ab| - 1] == a + b[..|b| - 1];
      assert ab[|ab| - 1] == b[|b| - 1];
      TotalPriceAppend(a, b[..|b| - 1]);
      assert TotalPrice(ab) == TotalPrice(a + b[..|b| - 1]) + CellPrice(b[|b| - 1]);
    }
  }

  /** Changing one cell moves the total by exactly the change in that cell's price. */
  lemma TotalPriceUpdateAt(a: seq<GridCell>, b: seq<GridCell>, k: nat)
    requires |a| == |b| && k < |a|
    requires forall i :: 0 <= i < |a| && i != k ==> a[i] == b[i]
    ensures TotalPrice(b) == TotalPrice(a) - CellPrice(a[k]) + CellPrice(b[k])
  {
    assert a == a[..k] + [a[k]] + a[k + 1..];
    assert b == b[..k] + [b[k]] + b[k + 1..];
    assert a[..k] == b[..k];
    assert a[k + 1..] == b[k + 1..];
    TotalPriceAppend(a[..k] + [a[k]], a[k + 1..]);
    TotalPriceAppend(a[..k], [a[k]]);
    TotalPriceAppend(b[..k] + [b[k]], b[k + 1..]);
    TotalPriceAppend(b[..k], [b[k]]);
    assert [a[k]][..0] == [];
    assert [b[k]][..0] == [];
  }

  /** In a grid with unique ids, framing cell `k` replaces its price by the frame's. */
  lemma AssignFrameTotal(cells: seq<GridCell>, k: nat, size: FrameSize)
    requires UniqueIds(cells) && k < |cells|
    ensures TotalPrice(AssignFrame(cells, cells[k].id, size)) == TotalPrice(cells) - CellPrice(cells[k]) + size.price
  {
    TotalPriceUpdateAt(cells, AssignFrame(cells, cells[k].id, size), k);
  }

  /** In a grid with unique ids, clearing cell `k` lowers the total by exactly its price. */
  lemma ClearCellTotal(cells: seq<GridCell>, k: nat)
    requires UniqueIds(cells) && k < |cells|
    ensures TotalPrice(ClearCell(cells, cells[k].id)) == TotalPrice(cells) - CellPrice(cells[k])
  {
    TotalPriceUpdateAt(cells, ClearCell(cells, cells[k].id), k);
  }

  /** Attaching an image never changes the total. */
  lemma {:induction false} AttachImageKeepsTotal(cells: seq<GridCell>, cellId: string, url: string, name: string)
    ensures TotalPrice(AttachImage(cells, cellId, url, name)) == TotalPrice(cells)
    decreases |cells|
  {
    if |cells| > 0 {
      var r := AttachImage(cells, cellId, url, name);
      var n := |cells| - 1;
      assert r[..n] == AttachImage(cells[..n], cellId, url, name);
      AttachImageKeepsTotal(cells[..n], cellId, url, name);
    }
  }

  /** An id that names no cell leaves the grid as it was. */
  lemma UnknownIdIsNoOp(cells: seq<GridCell>, cellId: string, size: FrameSize, url: string, name: string)
    requires forall i :: 0 <= i < |cells| ==> cells[i].id != cellId
    ensures AssignFrame(cells, cellId, size) == cells
    ensures AttachImage(cells, cellId, url, name) == cells
    ensures ClearCell(cells, cellId) == cells
  {
  }

  /** Clearing all is idempotent and leaves a zero total. */
  lemma ClearAllSettles(cells: seq<GridCell>)
    ensures ClearAll(ClearAll(cells)) == ClearAll(cells)
    ensures TotalPrice(ClearAll(cells)) == 0
  {
  }

  // ---------------------------------------------------------------- reference total

  function Sum(xs: seq<int>): int {
    if |xs| == 0 then 0 else xs[0] + Sum(xs[1..])
  }

  predicate Framed(cell: GridCell) {
    cell.frame.Some?
  }

  /** The prices of the framed cells, in grid order. */
  function FramePrices(cells: seq<GridCell>): (ps: seq<int>)
    ensures |ps| == Seqs.Count(cells, Framed)
  {
    if |cells| == 0 then []
    else (if Framed(cells[0]) then [cells[0].frame.value.price] else []) + FramePrices(cells[1..])
  }

  lemma SumCons(x: int, xs: seq<int>)
    ensures Sum([x] + xs) == x + Sum(xs)
  {
    assert ([x] + xs)[1..] == xs;
  }

  /** The running total is the plain sum of the framed cells' catalog prices. */
  lemma {:induction false} TotalPriceIsSumOfFramePrices(cells: seq<GridCell>)
    ensures TotalPrice(cells) == Sum(FramePrices(cells))
    decreases |cells|
  {
    if |cells| > 0 {
      var tail := cells[1..];
      TotalPriceIsSumOfFramePrices(tail);
      assert cells == [cells[0]] + tail;
      TotalPriceAppend([cells[0]], tail);
      assert [cells[0]][..0] == [];
      if Framed(cells[0]) {
        SumCons(cells[0].frame.value.price, FramePrices(tail));
      } else {
        assert FramePrices(cells) == FramePrices(tail);
      }
    }
  }

  /** The worked example: a 2 by 2 grid with a 4x6 and an 8x10 in its top row totals 48.98. */
  lemma TwoFrameExample(cells: seq<GridCell>)
    requires IsLayout(cells, 2, 2)
    requires forall k :: 0 <= k < |cells| ==> IsEmpty(cells[k])
    ensures TotalPrice(AssignFrame(AssignFrame(cells, "0-0", FrameSizes[0]), "0-1", FrameSizes[5])) == 4898
  {
    LayoutIdsUnique(cells, 2, 2);
    assert CellId(0, 0) == "0-0" && CellId(0, 1) == "0-1";
    assert CellIndex(0, 0, 2) == 0 && CellIndex(0, 1, 2) == 1;
    assert cells[0].id == "0-0" && cells[1].id == "0-1";
    assert TotalPrice(cells) == 0;
    var once := AssignFrame(cells, "0-0", FrameSizes[0]);
    AssignFrameTotal(cells, 0, FrameSizes[0]);
    assert TotalPrice(once) == 1599;
    assert once[1] == cells[1];
    SameShapeKeepsLayout(cells, once, 2, 2);
    AssignFrameTotal(once, 1, FrameSizes[5]);
  }
}
