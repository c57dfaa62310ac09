/**
 * The table builder shared by every variant of the codec: one grid at a
 * time, row by row and cell by cell, each non-blank cell's string gets the
 * code `f"{prefix}{row + 1:01}x{col + 1:02}"` in the encode table and the
 * code gets the cell back in the decode table. The nested loops of the
 * source are specified here as left folds (`AddCells`, `AddRows`), and the
 * lemmas say what the folded tables contain.
 */
module TableBuilder {
  import opened PyText
  import opened Results
  import Registry

  type Grid = Registry.Grid

  /** The positional code of the cell at 0-based (row, col) of the grid with layer `prefix`. */
  function Code(prefix: char, row: nat, col: nat): string
  {
    [prefix] + ZeroPad(Decimal(row + 1), 1) + "x" + ZeroPad(Decimal(col + 1), 2)
  }

  datatype Tables = Tables(enc: map<string, string>, dec: map<string, string>)

  const NoTables: Tables := Tables(map[], map[])

  /** One iteration of the innermost loop. */
  function AddCell(t: Tables, prefix: char, row: nat, col: nat, cell: string): Tables
  {
    if IsBlank(cell) then t
    else Tables(t.enc[cell := Code(prefix, row, col)], t.dec[Code(prefix, row, col) := cell])
  }

  /** The first `n` cells of row number `row`, added in order. */
  function AddCells(t: Tables, prefix: char, row: nat, cells: seq<string>, n: nat): Tables
    requires n <= |cells|
  {
    if n == 0 then t
    else AddCell(AddCells(t, prefix, row, cells, n - 1), prefix, row, n - 1, cells[n - 1])
  }

  /** The first `m` rows of `grid`, added in order. */
  function AddRows(t: Tables, prefix: char, grid: Grid, m: nat): Tables
    requires m <= |grid|
  {
    if m == 0 then t
    else AddCells(AddRows(t, prefix, grid, m - 1), prefix, m - 1, grid[m - 1], |grid[m - 1]|)
  }

  function AddGrid(t: Tables, prefix: char, grid: Grid): Tables
  {
    AddRows(t, prefix, grid, |grid|)
  }

  /** Both grids of a layout: the lowercase one under layer '0', then the uppercase one under '1'. */
  function AddLayout(t: Tables, lowercase: Grid, uppercase: Grid): Tables
  {
    AddGrid(AddGrid(t, '0', lowercase), '1', uppercase)
  }

  /** The key `k` is in both maps or in neither, with the same value. */
  predicate Agrees(m1: map<string, string>, m2: map<string, string>, k: string)
  {
    (k in m1 <==> k in m2) && (k in m1 ==> m1[k] == m2[k])
  }

  // ----- the shape of a code -----

  /**
   * A code starts with its layer prefix, has a non-zero digit second, holds
   * no whitespace, and has exactly five characters when the row number fits
   * one digit and the column number two.
   */
  lemma CodeShape(prefix: char, row: nat, col: nat)
    ensures var k := Code(prefix, row, col);
      && 5 <= |k| && k[0] == prefix && '1' <= k[1] <= '9'
      && (!IsSpace(prefix) ==> NoSpace(k))
      && (row < 9 && col < 99 ==> |k| == 5)
  {
    var d, e := ZeroPad(Decimal(row + 1), 1), ZeroPad(Decimal(col + 1), 2);
    PaddedDecimalShape(row + 1, 1);
    PaddedDecimalShape(col + 1, 2);
    DecimalShape(row + 1);
    var k := Code(prefix, row, col);
    assert k == [prefix] + d + "x" + e;
    assert k[1] == d[0];
    if !IsSpace(prefix) {
      DigitsNoSpace(d);
      DigitsNoSpace(e);
      NoSpaceConcat([prefix], d);
      NoSpaceConcat([prefix] + d, "x");
      NoSpaceConcat([prefix] + d + "x", e);
    }
  }

  /** A code splits at its first 'x' after the prefix into the padded row and the padded column. */
  lemma CodeParts(p: char, r: nat, c: nat)
    ensures var k, d := Code(p, r, c), ZeroPad(Decimal(r + 1), 1);
      && Find(k, 'x', 1) == 1 + |d|
      && k[0] == p && k[1..1 + |d|] == d && k[2 + |d|..] == ZeroPad(Decimal(c + 1), 2)
  {
    var d, e := ZeroPad(Decimal(r + 1), 1), ZeroPad(Decimal(c + 1), 2);
    var k := Code(p, r, c);
    assert k == [p] + d + "x" + e;
    PaddedDecimalShape(r + 1, 1);
    XPosition(p, d, e);
  }

  /** Distinct (layer, row, column) triples get distinct codes. */
  lemma CodeInjective(p1: char, r1: nat, c1: nat, p2: char, r2: nat, c2: nat)
    requires Code(p1, r1, c1) == Code(p2, r2, c2)
    ensures p1 == p2 && r1 == r2 && c1 == c2
  {
    CodeParts(p1, r1, c1);
    CodeParts(p2, r2, c2);
    PaddedDecimalInjective(r1 + 1, r2 + 1, 1);
    PaddedDecimalInjective(c1 + 1, c2 + 1, 2);
  }

  /** Distinct positions give distinct codes (the contrapositive, for callers). */
  lemma CodeDistinct(p1: char, r1: nat, c1: nat, p2: char, r2: nat, c2: nat)
    requires p1 != p2 || r1 != r2 || c1 != c2
    ensures Code(p1, r1, c1) != Code(p2, r2, c2)
  {
    if Code(p1, r1, c1) == Code(p2, r2, c2) {
      CodeInjective(p1, r1, c1, p2, r2, c2);
    }
  }

  /** The first 'x' after the prefix sits right after the row digits. */
  lemma XPosition(p: char, d: string, e: string)
    requires forall i :: 0 <= i < |d| ==> IsDigit(d[i])
    ensures Find([p] + d + "x" + e, 'x', 1) == 1 + |d|
  {
    var k := [p] + d + "x" + e;
    assert k[1 + |d|] == 'x';
    assert forall j :: 1 <= j < 1 + |d| ==> k[j] == d[j - 1];
  }

  // ----- where a cell's string was last seen -----

  /** The largest column below `n` whose cell is `ch`, or -1. */
  function LastIndex(cells: seq<string>, ch: string, n: nat): (c: int)
    requires n <= |cells|
    ensures -1 <= c < n
    ensures 0 <= c ==> cells[c] == ch
    ensures forall c2 :: c < c2 < n ==> cells[c2] != ch
  {
    if n == 0 then -1 else if cells[n - 1] == ch then n - 1 else LastIndex(cells, ch, n - 1)
  }

  /** The largest row below `m` that holds `ch` somewhere, or -1. */
  function LastRow(grid: Grid, ch: string, m: nat): (r: int)
    requires m <= |grid|
    ensures -1 <= r < m
    ensures 0 <= r ==> 0 <= LastIndex(grid[r], ch, |grid[r]|)
    ensures forall r2 :: r < r2 < m ==> LastIndex(grid[r2], ch, |grid[r2]|) == -1
  {
    if m == 0 then -1
    else if 0 <= LastIndex(grid[m - 1], ch, |grid[m - 1]|) then m - 1
    else LastRow(grid, ch, m - 1)
  }

  /** The code a grid gives `ch`: that of the last cell holding it (Python dict assignment: last write wins). */
  function LastCode(prefix: char, grid: Grid, ch: string): string
    requires 0 <= LastRow(grid, ch, |grid|)
  {
    var r := LastRow(grid, ch, |grid|);
    Code(prefix, r, LastIndex(grid[r], ch, |grid[r]|))
  }

  // ----- the encode table -----

  lemma {:induction false} CellsEnc(t: Tables, prefix: char, row: nat, cells: seq<string>, n: nat, ch: string)
    requires n <= |cells|
    requires !IsBlank(ch)
    ensures var t' := AddCells(t, prefix, row, cells, n); var c := LastIndex(cells, ch, n);
      if 0 <= c then ch in t'.enc && t'.enc[ch] == Code(prefix, row, c) else Agrees(t.enc, t'.enc, ch)
  {
    if n > 0 {
      CellsEnc(t, prefix, row, cells, n - 1, ch);
      var prev := AddCells(t, prefix, row, cells, n - 1);
      assert AddCells(t, prefix, row, cells, n) == AddCell(prev, prefix, row, n - 1, cells[n - 1]);
      if cells[n - 1] != ch {
        assert LastIndex(cells, ch, n) == LastIndex(cells, ch, n - 1);
      }
    }
  }

  lemma {:induction false} RowsEnc(t: Tables, prefix: char, grid: Grid, m: nat, ch: string)
    requires m <= |grid|
    requires !IsBlank(ch)
    ensures var t' := AddRows(t, prefix, grid, m); var r := LastRow(grid, ch, m);
      if 0 <= r then ch in t'.enc && t'.enc[ch] == Code(prefix, r, LastIndex(grid[r], ch, |grid[r]|))
      else Agrees(t.enc, t'.enc, ch)
  {
    if m > 0 {
      RowsEnc(t, prefix, grid, m - 1, ch);
      CellsEnc(AddRows(t, prefix, grid, m - 1), prefix, m - 1, grid[m - 1], |grid[m - 1]|, ch);
    }
  }

  /**
   * After adding a grid, a non-blank string that occurs in it is encoded by
   * the code of its LAST cell; one that does not occur keeps whatever entry
   * (or absence of entry) it had before.
   */
  lemma GridEnc(t: Tables, prefix: char, grid: Grid, ch: string)
    requires !IsBlank(ch)
    ensures var t' := AddGrid(t, prefix, grid);
      if 0 <= LastRow(grid, ch, |grid|) then ch in t'.enc && t'.enc[ch] == LastCode(prefix, grid, ch)
      else Agrees(t.enc, t'.enc, ch)
  {
    RowsEnc(t, prefix, grid, |grid|, ch);
  }

  /** Blank cells never get a code, and adding a grid leaves a blank string's entry untouched. */
  lemma {:induction false} GridSkipsBlank(t: Tables, prefix: char, grid: Grid, m: nat, ch: string)
    requires m <= |grid|
    requires IsBlank(ch)
    ensures Agrees(t.enc, AddRows(t, prefix, grid, m).enc, ch)
  {
    if m > 0 {
      GridSkipsBlank(t, prefix, grid, m - 1, ch);
      CellsSkipBlank(AddRows(t, prefix, grid, m - 1), prefix, m - 1, grid[m - 1], |grid[m - 1]|, ch);
    }
  }

  lemma {:induction false} CellsSkipBlank(t: Tables, prefix: char, row: nat, cells: seq<string>, n: nat, ch: string)
    requires n <= |cells|
    requires IsBlank(ch)
    ensures Agrees(t.enc, AddCells(t, prefix, row, cells, n).enc, ch)
  {
    if n > 0 {
      CellsSkipBlank(t, prefix, row, cells, n - 1, ch);
    }
  }

  // ----- the decode table -----

  lemma {:induction false} CellsDecAt(t: Tables, prefix: char, row: nat, cells: seq<string>, n: nat, c: nat)
    requires c < n <= |cells|
    requires !IsBlank(cells[c])
    ensures var t' := AddCells(t, prefix, row, cells, n);
      Code(prefix, row, c) in t'.dec && t'.dec[Code(prefix, row, c)] == cells[c]
  {
    if c < n - 1 {
      CellsDecAt(t, prefix, row, cells, n - 1, c);
      CodeDistinct(prefix, row, n - 1, prefix, row, c);
    }
  }

  lemma {:induction false} CellsDecOther(t: Tables, prefix: char, row: nat, cells: seq<string>, n: nat, k: string)
    requires n <= |cells|
    requires forall c :: 0 <= c < n ==> Code(prefix, row, c) != k
    ensures Agrees(t.dec, AddCells(t, prefix, row, cells, n).dec, k)
  {
    if n > 0 {
      CellsDecOther(t, prefix, row, cells, n - 1, k);
    }
  }

  lemma {:induction false} CellsDecOtherRow(t: Tables, prefix: char, row: nat, cells: seq<string>, n: nat, r: nat, c: nat)
    requires n <= |cells|
    requires r != row
    ensures Agrees(t.dec, AddCells(t, prefix, row, cells, n).dec, Code(prefix, r, c))
  {
    if n > 0 {
      CellsDecOtherRow(t, prefix, row, cells, n - 1, r, c);
      CodeDistinct(prefix, row, n - 1, prefix, r, c);
    }
  }

  lemma {:induction false} RowsDecAt(t: Tables, prefix: char, grid: Grid, m: nat, r: nat, c: nat)
    requires r < m <= |grid|
    requires c < |grid[r]|
    requires !IsBlank(grid[r][c])
    ensures var t' := AddRows(t, prefix, grid, m);
      Code(prefix, r, c) in t'.dec && t'.dec[Code(prefix, r, c)] == grid[r][c]
  {
    var prev := AddRows(t, prefix, grid, m - 1);
    if r == m - 1 {
      CellsDecAt(prev, prefix, r, grid[r], |grid[r]|, c);
    } else {
      RowsDecAt(t, prefix, grid, m - 1, r, c);
      CellsDecOtherRow(prev, prefix, m - 1, grid[m - 1], |grid[m - 1]|, r, c);
    }
  }

  lemma {:induction false} RowsDecOther(t: Tables, prefix: char, grid: Grid, m: nat, k: string)
    requires m <= |grid|
    requires forall r, c :: 0 <= r < m && 0 <= c < |grid[r]| ==> Code(prefix, r, c) != k
    ensures Agrees(t.dec, AddRows(t, prefix, grid, m).dec, k)
  {
    if m > 0 {
      RowsDecOther(t, prefix, grid, m - 1, k);
      CellsDecOther(AddRows(t, prefix, grid, m - 1), prefix, m - 1, grid[m - 1], |grid[m - 1]|, k);
    }
  }

  /** After adding a grid, the code of every non-blank cell decodes to that cell. */
  lemma GridDecAt(t: Tables, prefix: char, grid: Grid, r: nat, c: nat)
    requires r < |grid| && c < |grid[r]|
    requires !IsBlank(grid[r][c])
    ensures var t' := AddGrid(t, prefix, grid);
      Code(prefix, r, c) in t'.dec && t'.dec[Code(prefix, r, c)] == grid[r][c]
  {
    RowsDecAt(t, prefix, grid, |grid|, r, c);
  }

  /** Adding a grid leaves every decode entry whose key does not start with the grid's prefix. */
  lemma GridDecOtherLayer(t: Tables, prefix: char, grid: Grid, k: string)
    requires k == [] || k[0] != prefix
    ensures Agrees(t.dec, AddGrid(t, prefix, grid).dec, k)
  {
    forall r, c | 0 <= r < |grid| && 0 <= c < |grid[r]| ensures Code(prefix, r, c) != k {
      CodeShape(prefix, r, c);
    }
    RowsDecOther(t, prefix, grid, |grid|, k);
  }

  /**
   * The shape every builder code has when the layer prefix is a digit: a
   * digit, a non-zero digit, at least five characters, no whitespace.
   */
  predicate IsCode(k: string)
  {
    5 <= |k| && IsDigit(k[0]) && '1' <= k[1] <= '9' && NoSpace(k)
  }

  lemma CodeIsCode(prefix: char, row: nat, col: nat)
    requires IsDigit(prefix)
    ensures IsCode(Code(prefix, row, col))
  {
    CodeShape(prefix, row, col);
  }

  /** Every decode key a grid adds, and every encode value it writes, is a code of its layer. */
  lemma {:induction false} RowsKeys(t: Tables, prefix: char, grid: Grid, m: nat)
    requires m <= |grid|
    requires IsDigit(prefix)
    ensures var t' := AddRows(t, prefix, grid, m);
      && (forall k :: k in t'.dec ==> k in t.dec || (IsCode(k) && k[0] == prefix))
      && (forall c :: c in t'.enc ==> (c in t.enc && t'.enc[c] == t.enc[c]) || (IsCode(t'.enc[c]) && t'.enc[c][0] == prefix))
  {
    if m > 0 {
      RowsKeys(t, prefix, grid, m - 1);
      CellsKeys(AddRows(t, prefix, grid, m - 1), prefix, m - 1, grid[m - 1], |grid[m - 1]|);
    }
  }

  lemma {:induction false} CellsKeys(t: Tables, prefix: char, row: nat, cells: seq<string>, n: nat)
    requires n <= |cells|
    requires IsDigit(prefix)
    ensures var t' := AddCells(t, prefix, row, cells, n);
      && (forall k :: k in t'.dec ==> k in t.dec || (IsCode(k) && k[0] == prefix))
      && (forall c :: c in t'.enc ==> (c in t.enc && t'.enc[c] == t.enc[c]) || (IsCode(t'.enc[c]) && t'.enc[c][0] == prefix))
  {
    if n > 0 {
      CellsKeys(t, prefix, row, cells, n - 1);
      CodeShape(prefix, row, n - 1);
    }
  }

  // ----- round trips -----

  /** Within one grid, every non-blank string it holds decodes back from its code. */
  lemma GridRoundTrip(t: Tables, prefix: char, grid: Grid, ch: string)
    requires !IsBlank(ch)
    requires 0 <= LastRow(grid, ch, |grid|)
    ensures var t' := AddGrid(t, prefix, grid);
      ch in t'.enc && t'.enc[ch] == LastCode(prefix, grid, ch) && t'.enc[ch] in t'.dec && t'.dec[t'.enc[ch]] == ch
  {
    GridEnc(t, prefix, grid, ch);
    var r := LastRow(grid, ch, |grid|);
    GridDecAt(t, prefix, grid, r, LastIndex(grid[r], ch, |grid[r]|));
  }

  /** `ch` is the string of some cell of the grid. */
  predicate Occurs(grid: Grid, ch: string)
  {
    0 <= LastRow(grid, ch, |grid|)
  }

  lemma OccursAt(grid: Grid, ch: string, r: nat, c: nat)
    requires r < |grid| && c < |grid[r]| && grid[r][c] == ch
    ensures Occurs(grid, ch)
  {
  }

  /**
   * After building a layout on top of any tables, every non-blank string of
   * either grid encodes to a code that decodes back to it. A string held by
   * both grids is encoded by the code of its last uppercase (layer '1')
   * cell; one held only by the lowercase grid by that of its last
   * lowercase (layer '0') cell.
   */
  lemma LayoutRoundTrip(t: Tables, lowercase: Grid, uppercase: Grid, ch: string)
    requires !IsBlank(ch)
    requires Occurs(lowercase, ch) || Occurs(uppercase, ch)
    ensures var t' := AddLayout(t, lowercase, uppercase);
      && ch in t'.enc && t'.enc[ch] in t'.dec && t'.dec[t'.enc[ch]] == ch
      && t'.enc[ch] == (if Occurs(uppercase, ch) then LastCode('1', uppercase, ch) else LastCode('0', lowercase, ch))
  {
    var mid := AddGrid(t, '0', lowercase);
    if Occurs(uppercase, ch) {
      GridRoundTrip(mid, '1', uppercase, ch);
    } else {
      GridRoundTrip(t, '0', lowercase, ch);
      GridEnc(mid, '1', uppercase, ch);
      var r := LastRow(lowercase, ch, |lowercase|);
      CodeShape('0', r, LastIndex(lowercase[r], ch, |lowercase[r]|));
      GridDecOtherLayer(mid, '1', uppercase, mid.enc[ch]);
    }
  }

  // ----- building from scratch and merging -----

  /** Adding onto existing tables is the same as overlaying tables built from nothing. */
  lemma {:induction false} CellsOverlay(t: Tables, prefix: char, row: nat, cells: seq<string>, n: nat)
    requires n <= |cells|
    ensures var own := AddCells(NoTables, prefix, row, cells, n);
      AddCells(t, prefix, row, cells, n) == Tables(t.enc + own.enc, t.dec + own.dec)
  {
    if n > 0 {
      CellsOverlay(t, prefix, row, cells, n - 1);
      var own := AddCells(NoTables, prefix, row, cells, n - 1);
      if !IsBlank(cells[n - 1]) {
        var k := Code(prefix, row, n - 1);
        UpdateUnion(t.enc, own.enc, cells[n - 1], k);
        UpdateUnion(t.dec, own.dec, k, cells[n - 1]);
      }
    }
  }

  lemma UnionAssoc(a: map<string, string>, b: map<string, string>, c: map<string, string>)
    ensures (a + b) + c == a + (b + c)
  {
  }

  /** Writing after an overlay is writing into the overlaid map. */
  lemma UpdateUnion(a: map<string, string>, b: map<string, string>, k: string, v: string)
    ensures (a + b)[k := v] == a + b[k := v]
  {
  }

  lemma {:induction false} RowsOverlay(t: Tables, prefix: char, grid: Grid, m: nat)
    requires m <= |grid|
    ensures var own := AddRows(NoTables, prefix, grid, m);
      AddRows(t, prefix, grid, m) == Tables(t.enc + own.enc, t.dec + own.dec)
  {
    if m > 0 {
      var prev, ownPrev := AddRows(t, prefix, grid, m - 1), AddRows(NoTables, prefix, grid, m - 1);
      RowsOverlay(t, prefix, grid, m - 1);
      CellsOverlay(prev, prefix, m - 1, grid[m - 1], |grid[m - 1]|);
      CellsOverlay(ownPrev, prefix, m - 1, grid[m - 1], |grid[m - 1]|);
      var row := AddCells(NoTables, prefix, m - 1, grid[m - 1], |grid[m - 1]|);
      assert prev == Tables(t.enc + ownPrev.enc, t.dec + ownPrev.dec);
      assert AddRows(t, prefix, grid, m) == Tables(prev.enc + row.enc, prev.dec + row.dec);
      assert AddRows(NoTables, prefix, grid, m) == Tables(ownPrev.enc + row.enc, ownPrev.dec + row.dec);
      UnionAssoc(t.enc, ownPrev.enc, row.enc);
      UnionAssoc(t.dec, ownPrev.dec, row.dec);
    }
  }

  /**
   * Building both grids onto `t` equals overlaying on `t` the merge
   * `{**lower, **upper}` of the two grids' own tables (upper wins).
   */
  lemma LayoutIsMerge(t: Tables, lowercase: Grid, uppercase: Grid)
    ensures var lo, up := AddGrid(NoTables, '0', lowercase), AddGrid(NoTables, '1', uppercase);
      AddLayout(t, lowercase, uppercase) == Tables(t.enc + (lo.enc + up.enc), t.dec + (lo.dec + up.dec))
  {
    var lo, up := AddGrid(NoTables, '0', lowercase), AddGrid(NoTables, '1', uppercase);
    var mid := AddGrid(t, '0', lowercase);
    RowsOverlay(t, '0', lowercase, |lowercase|);
    RowsOverlay(mid, '1', uppercase, |uppercase|);
    assert (t.enc + lo.enc) + up.enc == t.enc + (lo.enc + up.enc);
    assert (t.dec + lo.dec) + up.dec == t.dec + (lo.dec + up.dec);
  }

  // ----- tables built from nothing -----

  /**
   * Tables in which every encoded string decodes back from its code, and
   * every encode value and decode key is a code.
   */
  ghost predicate Coherent(t: Tables)
  {
    && (forall c :: c in t.enc ==> IsCode(t.enc[c]) && t.enc[c] in t.dec && t.dec[t.enc[c]] == c)
    && (forall k :: k in t.dec ==> IsCode(k))
  }

  /**
   * The tables of one layout built from nothing are coherent, and their
   * encode keys are exactly the non-blank strings of its grids.
   */
  lemma FreshCoherent(lowercase: Grid, uppercase: Grid)
    ensures var t := AddLayout(NoTables, lowercase, uppercase);
      && Coherent(t)
      && (forall c :: c in t.enc <==> !IsBlank(c) && (Occurs(lowercase, c) || Occurs(uppercase, c)))
  {
    var mid := AddGrid(NoTables, '0', lowercase);
    var t := AddLayout(NoTables, lowercase, uppercase);
    RowsKeys(NoTables, '0', lowercase, |lowercase|);
    RowsKeys(mid, '1', uppercase, |uppercase|);
    forall c ensures c in t.enc <==> !IsBlank(c) && (Occurs(lowercase, c) || Occurs(uppercase, c)) {
      if IsBlank(c) {
        GridSkipsBlank(NoTables, '0', lowercase, |lowercase|, c);
        GridSkipsBlank(mid, '1', uppercase, |uppercase|, c);
      } else if Occurs(lowercase, c) || Occurs(uppercase, c) {
        LayoutRoundTrip(NoTables, lowercase, uppercase, c);
      } else {
        GridEnc(NoTables, '0', lowercase, c);
        GridEnc(mid, '1', uppercase, c);
      }
    }
    forall c | c in t.enc ensures t.enc[c] in t.dec && t.dec[t.enc[c]] == c {
      LayoutRoundTrip(NoTables, lowercase, uppercase, c);
    }
  }

  // ----- the loops themselves -----

  /**
   * The nested `for row_idx, row in enumerate(layout)` / `for col_idx, char
   * in enumerate(row)` loops that write one grid into the tables.
   */
  method FillGrid(t: Tables, prefix: char, grid: Grid) returns (r: Tables)
    ensures r == AddGrid(t, prefix, grid)
  {
    var enc, dec := t.enc, t.dec;
    var row := 0;
    while row < |grid|
      invariant 0 <= row <= |grid|
      invariant Tables(enc, dec) == AddRows(t, prefix, grid, row)
    {
      var cells := grid[row];
      var col := 0;
      while col < |cells|
        invariant 0 <= col <= |cells|
        invariant Tables(enc, dec) == AddCells(AddRows(t, prefix, grid, row), prefix, row, cells, col)
      {
        var cell := cells[col];
        if !IsBlank(cell) {
          var code := Code(prefix, row, col);
          enc := enc[cell := code];
          dec := dec[code := cell];
        }
        col := col + 1;
      }
      row := row + 1;
    }
    r := Tables(enc, dec);
  }
}
