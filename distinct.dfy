/**
 * Layouts in which no non-blank string occupies two cells. For them the
 * tables built from nothing are a bijection: every code decodes to a string
 * whose code it is, so the encode and decode tables have the same size.
 * (The HCESAR layout is not of this kind; see `BuiltinLayouts.HcesarRepeats`.)
 */
module DistinctGrids {
  import opened PyText
  import opened TableBuilder

  /** No non-blank string appears twice in one row. */
  ghost predicate RowDistinct(cells: seq<string>)
  {
    forall i, j :: 0 <= i < j < |cells| && !IsBlank(cells[i]) ==> cells[i] != cells[j]
  }

  /** No non-blank string of row `a` appears in row `b`. */
  ghost predicate RowsApart(a: seq<string>, b: seq<string>)
  {
    forall i, j :: 0 <= i < |a| && 0 <= j < |b| && !IsBlank(a[i]) ==> a[i] != b[j]
  }

  /** Each non-blank string of the grid occupies exactly one cell. */
  ghost predicate Unique(grid: Grid)
  {
    forall r1, c1, r2, c2 ::
      (0 <= r1 < |grid| && 0 <= c1 < |grid[r1]| && 0 <= r2 < |grid| && 0 <= c2 < |grid[r2]|
       && !IsBlank(grid[r1][c1]) && grid[r1][c1] == grid[r2][c2]) ==> r1 == r2 && c1 == c2
  }

  /** No non-blank string of `g1` appears in `g2`. */
  ghost predicate Apart(g1: Grid, g2: Grid)
  {
    forall r1, c1, r2, c2 ::
      (0 <= r1 < |g1| && 0 <= c1 < |g1[r1]| && 0 <= r2 < |g2| && 0 <= c2 < |g2[r2]|
       && !IsBlank(g1[r1][c1])) ==> g1[r1][c1] != g2[r2][c2]
  }

  /** A grid is repeat-free when each row is and no two rows share a string. */
  lemma UniqueFromRows(grid: Grid)
    requires forall r :: 0 <= r < |grid| ==> RowDistinct(grid[r])
    requires forall r1, r2 :: 0 <= r1 < r2 < |grid| ==> RowsApart(grid[r1], grid[r2])
    ensures Unique(grid)
  {
    forall r1, c1, r2, c2 |
      0 <= r1 < |grid| && 0 <= c1 < |grid[r1]| && 0 <= r2 < |grid| && 0 <= c2 < |grid[r2]|
      && !IsBlank(grid[r1][c1]) && grid[r1][c1] == grid[r2][c2]
      ensures r1 == r2 && c1 == c2
    {
    }
  }

  /** Two grids are apart when every pair of their rows is. */
  lemma ApartFromRows(g1: Grid, g2: Grid)
    requires forall r1, r2 :: 0 <= r1 < |g1| && 0 <= r2 < |g2| ==> RowsApart(g1[r1], g2[r2])
    ensures Apart(g1, g2)
  {
    forall r1, c1, r2, c2 |
      0 <= r1 < |g1| && 0 <= c1 < |g1[r1]| && 0 <= r2 < |g2| && 0 <= c2 < |g2[r2]| && !IsBlank(g1[r1][c1])
      ensures g1[r1][c1] != g2[r2][c2]
    {
      assert RowsApart(g1[r1], g2[r2]);
    }
  }

  /** A row of one-character cells is repeat-free when its characters are, blanks aside. */
  lemma SingleCharsDistinct(cells: seq<string>, keys: string)
    requires |cells| == |keys|
    requires forall i :: 0 <= i < |keys| ==> cells[i] == [keys[i]]
    requires forall i, j :: 0 <= i < j < |keys| && !IsSpace(keys[i]) ==> keys[i] != keys[j]
    ensures RowDistinct(cells)
  {
    forall i, j | 0 <= i < j < |cells| && !IsBlank(cells[i]) ensures cells[i] != cells[j] {
      assert cells[i][0] == keys[i] && cells[j][0] == keys[j];
    }
  }

  /** Two rows of one-character cells are apart when their characters are, blanks aside. */
  lemma SingleCharsApart(a: seq<string>, b: seq<string>, aKeys: string, bKeys: string)
    requires |a| == |aKeys| && |b| == |bKeys|
    requires forall i :: 0 <= i < |aKeys| ==> a[i] == [aKeys[i]]
    requires forall j :: 0 <= j < |bKeys| ==> b[j] == [bKeys[j]]
    requires forall i, j :: 0 <= i < |aKeys| && 0 <= j < |bKeys| && !IsSpace(aKeys[i]) ==> aKeys[i] != bKeys[j]
    ensures RowsApart(a, b)
  {
    forall i, j | 0 <= i < |a| && 0 <= j < |b| && !IsBlank(a[i]) ensures a[i] != b[j] {
      assert a[i][0] == aKeys[i] && b[j][0] == bKeys[j];
    }
  }

  // ----- where a decode key comes from -----

  lemma {:induction false} CellsDecSource(t: Tables, prefix: char, row: nat, cells: seq<string>, n: nat, k: string)
    requires n <= |cells|
    requires k in AddCells(t, prefix, row, cells, n).dec
    ensures k in t.dec || exists c :: 0 <= c < n && !IsBlank(cells[c]) && k == Code(prefix, row, c)
  {
    if n > 0 && (IsBlank(cells[n - 1]) || k != Code(prefix, row, n - 1)) {
      CellsDecSource(t, prefix, row, cells, n - 1, k);
    }
  }

  lemma {:induction false} RowsDecSource(t: Tables, prefix: char, grid: Grid, m: nat, k: string)
    requires m <= |grid|
    requires k in AddRows(t, prefix, grid, m).dec
    ensures k in t.dec || exists r, c :: 0 <= r < m && 0 <= c < |grid[r]| && !IsBlank(grid[r][c]) && k == Code(prefix, r, c)
  {
    if m > 0 {
      var prev := AddRows(t, prefix, grid, m - 1);
      CellsDecSource(prev, prefix, m - 1, grid[m - 1], |grid[m - 1]|, k);
      if k in prev.dec {
        RowsDecSource(t, prefix, grid, m - 1, k);
      }
    }
  }

  /** Every decode key a grid adds to empty tables is the code of one of its non-blank cells. */
  lemma GridDecSource(prefix: char, grid: Grid, k: string)
    requires k in AddGrid(NoTables, prefix, grid).dec
    ensures exists r, c :: 0 <= r < |grid| && 0 <= c < |grid[r]| && !IsBlank(grid[r][c]) && k == Code(prefix, r, c)
  {
    RowsDecSource(NoTables, prefix, grid, |grid|, k);
  }

  // ----- the bijection -----

  /** In a repeat-free grid, the code a cell's string gets is that cell's own code. */
  lemma UniqueLastCode(prefix: char, grid: Grid, r: nat, c: nat)
    requires Unique(grid)
    requires r < |grid| && c < |grid[r]| && !IsBlank(grid[r][c])
    ensures Occurs(grid, grid[r][c]) && LastCode(prefix, grid, grid[r][c]) == Code(prefix, r, c)
  {
    var ch := grid[r][c];
    OccursAt(grid, ch, r, c);
    var r' := LastRow(grid, ch, |grid|);
    var c' := LastIndex(grid[r'], ch, |grid[r']|);
    assert grid[r'][c'] == ch;
  }

  /** A string that occurs in a grid sits in one of its cells. */
  lemma OccursCell(grid: Grid, ch: string)
    requires Occurs(grid, ch)
    ensures exists r, c :: 0 <= r < |grid| && 0 <= c < |grid[r]| && grid[r][c] == ch
  {
    var r := LastRow(grid, ch, |grid|);
    var c := LastIndex(grid[r], ch, |grid[r]|);
    assert grid[r][c] == ch;
  }

  /**
   * For a repeat-free layout built from nothing, every code decodes to a
   * string whose code it is.
   */
  lemma DecodedBack(lowercase: Grid, uppercase: Grid, k: string)
    requires Unique(lowercase) && Unique(uppercase) && Apart(lowercase, uppercase)
    requires k in AddLayout(NoTables, lowercase, uppercase).dec
    ensures var t := AddLayout(NoTables, lowercase, uppercase);
      t.dec[k] in t.enc && t.enc[t.dec[k]] == k
  {
    var t := AddLayout(NoTables, lowercase, uppercase);
    var mid := AddGrid(NoTables, '0', lowercase);
    RowsKeys(NoTables, '0', lowercase, |lowercase|);
    if k in mid.dec {
      GridDecOtherLayer(mid, '1', uppercase, k);
      GridDecSource('0', lowercase, k);
      var r, c :| 0 <= r < |lowercase| && 0 <= c < |lowercase[r]| && !IsBlank(lowercase[r][c]) && k == Code('0', r, c);
      var ch := lowercase[r][c];
      GridDecAt(NoTables, '0', lowercase, r, c);
      if Occurs(uppercase, ch) {
        OccursCell(uppercase, ch);
      }
      UniqueLastCode('0', lowercase, r, c);
      LayoutRoundTrip(NoTables, lowercase, uppercase, ch);
    } else {
      RowsDecSource(mid, '1', uppercase, |uppercase|, k);
      var r, c :| 0 <= r < |uppercase| && 0 <= c < |uppercase[r]| && !IsBlank(uppercase[r][c]) && k == Code('1', r, c);
      var ch := uppercase[r][c];
      GridDecAt(mid, '1', uppercase, r, c);
      UniqueLastCode('1', uppercase, r, c);
      LayoutRoundTrip(NoTables, lowercase, uppercase, ch);
    }
  }

  /** Two maps that undo each other have the same number of keys. */
  lemma InverseSameSize(a: map<string, string>, b: map<string, string>)
    requires forall x :: x in a ==> a[x] in b && b[a[x]] == x
    requires forall y :: y in b ==> b[y] in a && a[b[y]] == y
    ensures |a| == |b|
    decreases |a|
  {
    if |a| > 0 {
      var x :| x in a;
      var y := a[x];
      var a', b' := a - {x}, b - {y};
      assert a'.Keys == a.Keys - {x};
      assert b'.Keys == b.Keys - {y};
      InverseSameSize(a', b');
    }
  }

  /**
   * A repeat-free layout built from nothing gives tables that are exact
   * inverses of each other, so both have the same size.
   */
  lemma DistinctLayoutBijective(lowercase: Grid, uppercase: Grid)
    requires Unique(lowercase) && Unique(uppercase) && Apart(lowercase, uppercase)
    ensures var t := AddLayout(NoTables, lowercase, uppercase);
      && (forall c :: c in t.enc ==> t.enc[c] in t.dec && t.dec[t.enc[c]] == c)
      && (forall k :: k in t.dec ==> t.dec[k] in t.enc && t.enc[t.dec[k]] == k)
      && |t.enc| == |t.dec|
  {
    var t := AddLayout(NoTables, lowercase, uppercase);
    FreshCoherent(lowercase, uppercase);
    forall k | k in t.dec ensures t.dec[k] in t.enc && t.enc[t.dec[k]] == k {
      DecodedBack(lowercase, uppercase, k);
    }
    InverseSameSize(t.enc, t.dec);
  }
}
