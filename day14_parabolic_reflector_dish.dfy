/**
 * Day 14, "Parabolic Reflector Dish" (day_14/solution.py).
 *
 * A platform holds round rocks `O`, cube-shaped rocks `#` and empty space
 * `.`. Tilting it north rolls every round rock north until it meets the
 * edge, a cube-shaped rock or another round rock. The load on the north
 * support beams counts each round rock by its distance from the south edge.
 * A spin cycle tilts the platform north, west, south and east in turn, by
 * sliding north and then turning the platform a quarter turn clockwise,
 * four times.
 *
 * The numpy field is an `array2<char>` changed in place; what the methods
 * do is stated through functions on its contents, a `Grid` of rows.
 */
module ParabolicReflectorDish {
  import opened Wrappers
  import LeastCommonMultiple

  /** The contents of the platform, row by row from north to south. */
  type Grid = seq<seq<char>>

  function Width(g: Grid): nat {
    if |g| == 0 then 0 else |g[0]|
  }

  /** All rows are equally long. */
  predicate Rect(g: Grid) {
    forall i | 0 <= i < |g| :: |g[i]| == Width(g)
  }

  predicate SameShape(g: Grid, h: Grid) {
    Rect(g) && Rect(h) && |g| == |h| && Width(g) == Width(h)
  }

  /** `g` with the cell in row `i`, column `j` set to `x`. */
  function Put(g: Grid, i: nat, j: nat, x: char): (h: Grid)
    requires Rect(g) && i < |g| && j < Width(g)
    ensures SameShape(g, h)
  {
    g[i := g[i][j := x]]
  }

  /** Two grids of one shape with the same cells are equal. */
  lemma GridExt(a: Grid, b: Grid)
    requires SameShape(a, b)
    requires forall r, c | 0 <= r < |a| && 0 <= c < Width(a) :: a[r][c] == b[r][c]
    ensures a == b
  {
    forall r | 0 <= r < |a| ensures a[r] == b[r] {
      assert |a[r]| == |b[r]|;
    }
  }

  // ---- the field as an array ----------------------------------------------------------

  /** One row of the field. */
  function Row(field: array2<char>, i: nat): (row: seq<char>)
    requires i < field.Length0
    reads field
    ensures |row| == field.Length1
    ensures forall j | 0 <= j < field.Length1 :: row[j] == field[i, j]
  {
    seq(field.Length1, j requires 0 <= j < field.Length1 reads field => field[i, j])
  }

  /** The contents of the field. */
  ghost function Cells(field: array2<char>): (g: Grid)
    reads field
    ensures |g| == field.Length0 && Rect(g) && (|g| > 0 ==> Width(g) == field.Length1)
    ensures forall i | 0 <= i < field.Length0 :: g[i] == Row(field, i)
  {
    seq(field.Length0, i requires 0 <= i < field.Length0 reads field => Row(field, i))
  }

  /** A field whose cells are those of `g` has `g` as its contents. */
  lemma CellsAre(field: array2<char>, g: Grid)
    requires |g| == field.Length0 && Rect(g) && (|g| > 0 ==> Width(g) == field.Length1)
    requires forall i, j | 0 <= i < field.Length0 && 0 <= j < field.Length1 :: g[i][j] == field[i, j]
    ensures Cells(field) == g
  {
    GridExt(Cells(field), g);
  }

  // ---- moving one rock ------------------------------------------------------------------

  /** `try_move_to_north`'s swap of a cell with the one north of it. */
  function Swap(g: Grid, r: nat, c: nat): (h: Grid)
    requires Rect(g) && 0 < r < |g| && c < Width(g)
    ensures SameShape(g, h)
  {
    Put(Put(g, r, c, g[r - 1][c]), r - 1, c, g[r][c])
  }

  /**
   * `try_move_to_north`: a round rock with empty space north of it swaps
   * places with that space and goes on from the row above; anything else
   * stays where it is.
   */
  function MoveNorth(g: Grid, r: nat, c: nat): (h: Grid)
    requires Rect(g) && r < |g| && c < Width(g)
    ensures SameShape(g, h)
    decreases r
  {
    if g[r][c] != 'O' || r == 0 || g[r - 1][c] != '.' then g
    else MoveNorth(Swap(g, r, c), r - 1, c)
  }

  /** The row where a round rock at row `r` of column `c` comes to rest. */
  function RestRow(g: Grid, r: nat, c: nat): (t: nat)
    requires Rect(g) && r < |g| && c < Width(g)
    ensures t <= r
    ensures forall k | t <= k < r :: g[k][c] == '.'
    ensures t == 0 || g[t - 1][c] != '.'
    decreases r
  {
    if r == 0 || g[r - 1][c] != '.' then r else RestRow(g, r - 1, c)
  }

  /** Cells of a column north of row `r` decide where a rock from row `r` stops. */
  lemma {:induction false} RestRowAgrees(g: Grid, h: Grid, r: nat, c: nat)
    requires SameShape(g, h) && r < |g| && c < Width(g)
    requires forall k | 0 <= k < r :: g[k][c] == h[k][c]
    ensures RestRow(g, r, c) == RestRow(h, r, c)
    decreases r
  {
    if r > 0 && g[r - 1][c] == '.' {
      RestRowAgrees(g, h, r - 1, c);
    }
  }

  /** The whole effect of one move: the rock leaves its cell for the rest row. */
  function Lift(g: Grid, r: nat, c: nat): (h: Grid)
    requires Rect(g) && r < |g| && c < Width(g)
    ensures SameShape(g, h)
  {
    if g[r][c] == 'O' && RestRow(g, r, c) < r then Put(Put(g, r, c, '.'), RestRow(g, r, c), c, 'O') else g
  }

  /** Moving a rock one swap at a time puts it straight into its rest row. */
  lemma {:induction false} MoveNorthLifts(g: Grid, r: nat, c: nat)
    requires Rect(g) && r < |g| && c < Width(g)
    ensures MoveNorth(g, r, c) == Lift(g, r, c)
    decreases r
  {
    if g[r][c] == 'O' && r > 0 && g[r - 1][c] == '.' {
      MoveNorthLifts(Swap(g, r, c), r - 1, c);
      LiftAfterSwap(g, r, c);
    }
  }

  /** After one swap, the rest of the move lands the rock where the whole move would. */
  lemma LiftAfterSwap(g: Grid, r: nat, c: nat)
    requires Rect(g) && 0 < r < |g| && c < Width(g) && g[r][c] == 'O' && g[r - 1][c] == '.'
    ensures Lift(Swap(g, r, c), r - 1, c) == Lift(g, r, c)
  {
    var s := Swap(g, r, c);
    RestRowAgrees(g, s, r - 1, c);
    var t := RestRow(g, r, c);
    assert t == RestRow(g, r - 1, c);
    assert s[r - 1][c] == 'O';
    if t < r - 1 {
      SwapThenEmpty(g, r, c);
    }
  }

  /** Emptying the cell a rock was swapped into leaves only the rock's old cell emptied. */
  lemma SwapThenEmpty(g: Grid, r: nat, c: nat)
    requires Rect(g) && 0 < r < |g| && c < Width(g) && g[r - 1][c] == '.'
    ensures Put(Swap(g, r, c), r - 1, c, '.') == Put(g, r, c, '.')
  {
    var a, b := Put(Swap(g, r, c), r - 1, c, '.'), Put(g, r, c, '.');
    forall i, j | 0 <= i < |a| && 0 <= j < Width(a) ensures a[i][j] == b[i][j] {
    }
    GridExt(a, b);
  }

  // ---- what a move keeps -------------------------------------------------------------------

  /** Column `c` read from north to south. */
  function Column(g: Grid, c: nat): (col: seq<char>)
    requires Rect(g) && c < Width(g)
    ensures |col| == |g| && forall i | 0 <= i < |g| :: col[i] == g[i][c]
  {
    seq(|g|, i requires 0 <= i < |g| => g[i][c])
  }

  /**
   * `h` is `g` with round rocks moved within their columns: the same shape,
   * cube-shaped rocks in the same cells, and every column holding the same
   * cells in some order.
   */
  predicate Rearranged(g: Grid, h: Grid) {
    && SameCubes(g, h)
    && forall c | 0 <= c < Width(g) :: multiset(Column(g, c)) == multiset(Column(h, c))
  }

  /** `a` and `b` have the same shape and their cube-shaped rocks in the same cells. */
  predicate SameCubes(a: Grid, b: Grid) {
    && SameShape(a, b)
    && forall i, j | 0 <= i < |a| && 0 <= j < Width(a) :: a[i][j] == '#' <==> b[i][j] == '#'
  }

  lemma SameCubesTrans(a: Grid, b: Grid, c: Grid)
    requires SameCubes(a, b) && SameCubes(b, c)
    ensures SameCubes(a, c)
  {
  }

  lemma RearrangedTrans(a: Grid, b: Grid, c: Grid)
    requires Rearranged(a, b) && Rearranged(b, c)
    ensures Rearranged(a, c)
  {
    forall k | 0 <= k < Width(a) ensures multiset(Column(a, k)) == multiset(Column(c, k)) {
      assert multiset(Column(a, k)) == multiset(Column(b, k));
    }
  }

  /** Setting a cell changes only its column, at its row. */
  lemma ColumnPut(g: Grid, i: nat, j: nat, x: char, c: nat)
    requires Rect(g) && i < |g| && j < Width(g) && c < Width(g)
    ensures Column(Put(g, i, j, x), c) == if c == j then Column(g, c)[i := x] else Column(g, c)
  {
  }

  /** A move only trades a round rock for empty space within one column. */
  lemma MoveNorthRearranges(g: Grid, r: nat, c: nat)
    requires Rect(g) && r < |g| && c < Width(g)
    ensures Rearranged(g, MoveNorth(g, r, c))
  {
    MoveNorthLifts(g, r, c);
    var t := RestRow(g, r, c);
    if g[r][c] == 'O' && t < r {
      var m := Put(g, r, c, '.');
      var h := Put(m, t, c, 'O');
      forall k | 0 <= k < Width(g) ensures multiset(Column(g, k)) == multiset(Column(h, k)) {
        ColumnPut(g, r, c, '.', k);
        ColumnPut(m, t, c, 'O', k);
        if k == c {
          var col := Column(g, c);
          assert col[r] == 'O' && col[t] == '.';
          assert Column(h, c) == col[r := '.'][t := 'O'];
        }
      }
    }
  }

  // ---- load ---------------------------------------------------------------------------------

  /** The number of round rocks in a row, `(field_row == "O").sum()`. */
  function CountRocks(row: seq<char>): (n: nat)
    ensures n <= |row|
  {
    if |row| == 0 then 0 else (if row[0] == 'O' then 1 else 0) + CountRocks(row[1..])
  }

  /** `count_points` over the first `i` rows: each rock in row `k` weighs `|g| - k`. */
  function RowsLoad(g: Grid, i: nat): int
    requires i <= |g|
  {
    if i == 0 then 0 else RowsLoad(g, i - 1) + CountRocks(g[i - 1]) * (|g| - (i - 1))
  }

  /** The load on the north support beams. */
  function Load(g: Grid): int {
    RowsLoad(g, |g|)
  }

  lemma {:induction false} CountRocksPut(row: seq<char>, j: nat, x: char)
    requires j < |row|
    ensures CountRocks(row[j := x]) == CountRocks(row) - (if row[j] == 'O' then 1 else 0) + (if x == 'O' then 1 else 0)
    decreases |row|
  {
    if j > 0 {
      assert row[j := x][1..] == row[1..][j - 1 := x];
      CountRocksPut(row[1..], j - 1, x);
    }
  }

  lemma {:induction false} RowsLoadPut(g: Grid, k: nat, row: seq<char>, i: nat)
    requires k < |g| && i <= |g|
    ensures RowsLoad(g[k := row], i) == RowsLoad(g, i) + if k < i then (CountRocks(row) - CountRocks(g[k])) * (|g| - k) else 0
    decreases i
  {
    if i > 0 {
      RowsLoadPut(g, k, row, i - 1);
      if i - 1 == k {
        Distribute(CountRocks(row), CountRocks(g[k]), |g| - k);
      }
    }
  }

  lemma Distribute(a: int, b: int, w: int)
    ensures a * w == b * w + (a - b) * w
  {
  }

  /** Setting one cell changes the load by that cell's weight, counted once per rock gained or lost. */
  lemma LoadPut(g: Grid, i: nat, j: nat, x: char)
    requires Rect(g) && i < |g| && j < Width(g)
    ensures Load(Put(g, i, j, x)) == Load(g) + ((if x == 'O' then 1 else 0) - (if g[i][j] == 'O' then 1 else 0)) * (|g| - i)
  {
    CountRocksPut(g[i], j, x);
    RowsLoadPut(g, i, g[i][j := x], |g|);
  }

  /** Each row a rock climbs north adds one to the load. */
  lemma MoveNorthLoad(g: Grid, r: nat, c: nat)
    requires Rect(g) && r < |g| && c < Width(g)
    ensures Load(MoveNorth(g, r, c)) == Load(g) + if g[r][c] == 'O' then r - RestRow(g, r, c) else 0
  {
    MoveNorthLifts(g, r, c);
    var t := RestRow(g, r, c);
    if g[r][c] == 'O' && t < r {
      LoadPut(g, r, c, '.');
      LoadPut(Put(g, r, c, '.'), t, c, 'O');
    }
  }

  // ---- sliding the whole platform ------------------------------------------------------------

  /** The inner loop of `slide_rocks_to_north`: the first `j` cells of row `i`, west to east. */
  function SlideRow(g: Grid, i: nat, j: nat): (h: Grid)
    requires Rect(g) && i < |g| && j <= Width(g)
    ensures SameShape(g, h)
    decreases j
  {
    if j == 0 then g else MoveNorth(SlideRow(g, i, j - 1), i, j - 1)
  }

  /** The outer loop of `slide_rocks_to_north`: the first `i` rows, north to south. */
  function SlideRows(g: Grid, i: nat): (h: Grid)
    requires Rect(g) && i <= |g|
    ensures SameShape(g, h)
  {
    if i == 0 then g else SlideRow(SlideRows(g, i - 1), i - 1, Width(g))
  }

  /** `slide_rocks_to_north`: the platform tilted north. */
  function Slide(g: Grid): (h: Grid)
    requires Rect(g)
    ensures SameShape(g, h)
  {
    SlideRows(g, |g|)
  }

  /** A round rock in row `r`, column `c` has no empty space directly north of it. */
  predicate Stays(g: Grid, r: nat, c: nat)
    requires Rect(g) && r < |g| && c < Width(g)
  {
    g[r][c] == 'O' && r > 0 ==> g[r - 1][c] != '.'
  }

  /** Every cell before row `i`, column `j` in row-major order stays. */
  predicate SettledBefore(g: Grid, i: nat, j: nat)
    requires Rect(g)
  {
    forall r, c | 0 <= r < |g| && 0 <= c < Width(g) && (r < i || (r == i && c < j)) :: Stays(g, r, c)
  }

  /** No round rock anywhere can roll further north. */
  predicate Settled(g: Grid)
    requires Rect(g)
  {
    SettledBefore(g, |g|, 0)
  }

  /** Moving the rock of one cell leaves it, and every cell already settled, settled. */
  lemma LiftSettles(g: Grid, i: nat, j: nat)
    requires Rect(g) && i < |g| && j < Width(g) && SettledBefore(g, i, j)
    ensures SettledBefore(Lift(g, i, j), i, j + 1)
  {
    var h := Lift(g, i, j);
    var t := RestRow(g, i, j);
    if g[i][j] == 'O' && t < i {
      forall r, c | 0 <= r < |h| && 0 <= c < Width(h) && (r < i || (r == i && c < j + 1))
        ensures Stays(h, r, c)
      {
        if c != j || r < t {
          assert r > 0 ==> h[r - 1][c] == g[r - 1][c];
          assert h[r][c] == g[r][c];
          assert Stays(g, r, c);
        } else if r > t {
          assert h[r][c] == '.';
        }
      }
    }
  }

  lemma {:induction false} SlideRowSettles(g: Grid, i: nat, j: nat)
    requires Rect(g) && i < |g| && j <= Width(g) && SettledBefore(g, i, 0)
    ensures SettledBefore(SlideRow(g, i, j), i, j)
    decreases j
  {
    if j > 0 {
      var p := SlideRow(g, i, j - 1);
      SlideRowSettles(g, i, j - 1);
      MoveNorthLifts(p, i, j - 1);
      LiftSettles(p, i, j - 1);
    }
  }

  lemma {:induction false} SlideRowsSettles(g: Grid, i: nat)
    requires Rect(g) && i <= |g|
    ensures SettledBefore(SlideRows(g, i), i, 0)
  {
    if i > 0 {
      var p := SlideRows(g, i - 1);
      SlideRowsSettles(g, i - 1);
      SlideRowSettles(p, i - 1, Width(g));
    }
  }

  /** After `slide_rocks_to_north` no round rock has empty space north of it. */
  lemma SlideSettles(g: Grid)
    requires Rect(g)
    ensures Settled(Slide(g))
  {
    SlideRowsSettles(g, |g|);
  }

  lemma {:induction false} SlideRowRearranges(g: Grid, i: nat, j: nat)
    requires Rect(g) && i < |g| && j <= Width(g)
    ensures Rearranged(g, SlideRow(g, i, j))
    decreases j
  {
    if j > 0 {
      var p := SlideRow(g, i, j - 1);
      SlideRowRearranges(g, i, j - 1);
      MoveNorthRearranges(p, i, j - 1);
      RearrangedTrans(g, p, SlideRow(g, i, j));
    } else {
      assert Rearranged(g, g);
    }
  }

  lemma {:induction false} SlideRowsRearranges(g: Grid, i: nat)
    requires Rect(g) && i <= |g|
    ensures Rearranged(g, SlideRows(g, i))
  {
    if i > 0 {
      var p := SlideRows(g, i - 1);
      SlideRowsRearranges(g, i - 1);
      SlideRowRearranges(p, i - 1, Width(g));
      RearrangedTrans(g, p, SlideRows(g, i));
    } else {
      assert Rearranged(g, g);
    }
  }

  /**
   * Sliding keeps every cube-shaped rock where it is and every column's
   * numbers of round rocks, cube-shaped rocks and empty cells.
   */
  lemma SlideRearranges(g: Grid)
    requires Rect(g)
    ensures Rearranged(g, Slide(g))
  {
    SlideRowsRearranges(g, |g|);
  }

  lemma {:induction false} SlideRowLoad(g: Grid, i: nat, j: nat)
    requires Rect(g) && i < |g| && j <= Width(g)
    ensures Load(SlideRow(g, i, j)) >= Load(g)
    decreases j
  {
    if j > 0 {
      SlideRowLoad(g, i, j - 1);
      MoveNorthLoad(SlideRow(g, i, j - 1), i, j - 1);
    }
  }

  lemma {:induction false} SlideRowsLoad(g: Grid, i: nat)
    requires Rect(g) && i <= |g|
    ensures Load(SlideRows(g, i)) >= Load(g)
  {
    if i > 0 {
      SlideRowsLoad(g, i - 1);
      SlideRowLoad(SlideRows(g, i - 1), i - 1, Width(g));
    }
  }

  /** Tilting north never lowers the load on the north beams. */
  lemma SlideLoad(g: Grid)
    requires Rect(g)
    ensures Load(Slide(g)) >= Load(g)
  {
    SlideRowsLoad(g, |g|);
  }

  lemma {:induction false} SettledSlideRow(g: Grid, i: nat, j: nat)
    requires Rect(g) && i < |g| && j <= Width(g) && Settled(g)
    ensures SlideRow(g, i, j) == g
    decreases j
  {
    if j > 0 {
      SettledSlideRow(g, i, j - 1);
      assert Stays(g, i, j - 1);
    }
  }

  lemma {:induction false} SettledSlideRows(g: Grid, i: nat)
    requires Rect(g) && i <= |g| && Settled(g)
    ensures SlideRows(g, i) == g
  {
    if i > 0 {
      SettledSlideRows(g, i - 1);
      SettledSlideRow(g, i - 1, Width(g));
    }
  }

  /** Sliding a platform a second time changes nothing. */
  lemma SlideIdempotent(g: Grid)
    requires Rect(g)
    ensures Slide(Slide(g)) == Slide(g)
  {
    SlideSettles(g);
    SettledSlideRows(Slide(g), |g|);
  }

  // ---- the spin cycle --------------------------------------------------------------------------

  /**
   * `np.rot90(field, 3)`: a quarter turn clockwise, so the west edge becomes
   * the north edge. A field without columns turns into one without rows.
   */
  function Rotate(g: Grid): (h: Grid)
    requires Rect(g)
    ensures Rect(h) && |h| == Width(g) && (|h| > 0 ==> Width(h) == |g|)
    ensures forall i, j | 0 <= i < Width(g) && 0 <= j < |g| :: h[i][j] == g[|g| - 1 - j][i]
  {
    seq(Width(g), i requires 0 <= i < Width(g) => seq(|g|, j requires 0 <= j < |g| => g[|g| - 1 - j][i]))
  }

  /** Four quarter turns bring the platform back. */
  lemma RotateFour(g: Grid)
    requires Rect(g) && |g| > 0 && Width(g) > 0
    ensures Rotate(Rotate(Rotate(Rotate(g)))) == g
  {
    var r1 := Rotate(g);
    var r2 := Rotate(r1);
    var r3 := Rotate(r2);
    var r4 := Rotate(r3);
    forall i, j | 0 <= i < |g| && 0 <= j < Width(g) ensures r4[i][j] == g[i][j] {
      assert r4[i][j] == r3[Width(g) - 1 - j][i];
      assert r3[Width(g) - 1 - j][i] == r2[|g| - 1 - i][Width(g) - 1 - j];
      assert r2[|g| - 1 - i][Width(g) - 1 - j] == r1[j][|g| - 1 - i];
    }
    GridExt(r4, g);
  }

  lemma RotateSameCubes(a: Grid, b: Grid)
    requires SameCubes(a, b) && |a| > 0 && Width(a) > 0
    ensures SameCubes(Rotate(a), Rotate(b))
  {
  }

  /** One quarter of `complete_cycle`: slide north, then turn clockwise. */
  function Spin(g: Grid): (h: Grid)
    requires Rect(g) && |g| > 0 && Width(g) > 0
    ensures Rect(h) && |h| == Width(g) && Width(h) == |g|
  {
    Rotate(Slide(g))
  }

  /** The first `k` quarters of a spin cycle. */
  function Spins(g: Grid, k: nat): (h: Grid)
    requires Rect(g) && |g| > 0 && Width(g) > 0
    ensures Rect(h) && |h| > 0 && Width(h) > 0
  {
    if k == 0 then g else Spin(Spins(g, k - 1))
  }

  /** `complete_cycle`: four quarters, tilting north, west, south and east. */
  function Cycle(g: Grid): (h: Grid)
    requires Rect(g) && |g| > 0 && Width(g) > 0
    ensures Rect(h) && |h| > 0 && Width(h) > 0
  {
    Spins(g, 4)
  }

  /** `k` quarter turns with no sliding. */
  function Turns(g: Grid, k: nat): (h: Grid)
    requires Rect(g) && |g| > 0 && Width(g) > 0
    ensures Rect(h) && |h| > 0 && Width(h) > 0
  {
    if k == 0 then g else Rotate(Turns(g, k - 1))
  }

  lemma {:induction false} SpinsSameCubes(g: Grid, k: nat)
    requires Rect(g) && |g| > 0 && Width(g) > 0
    ensures SameCubes(Turns(g, k), Spins(g, k))
  {
    if k > 0 {
      var p := Spins(g, k - 1);
      SpinsSameCubes(g, k - 1);
      SlideRearranges(p);
      SameCubesTrans(Turns(g, k - 1), p, Slide(p));
      RotateSameCubes(Turns(g, k - 1), Slide(p));
    }
  }

  /** A spin cycle leaves the platform's shape and its cube-shaped rocks as they were. */
  lemma CycleKeepsCubes(g: Grid)
    requires Rect(g) && |g| > 0 && Width(g) > 0
    ensures SameCubes(g, Cycle(g))
  {
    SpinsSameCubes(g, 4);
    RotateFour(g);
    assert Turns(g, 1) == Rotate(Turns(g, 0));
    assert Turns(g, 2) == Rotate(Turns(g, 1));
    assert Turns(g, 3) == Rotate(Turns(g, 2));
    assert Turns(g, 4) == Rotate(Turns(g, 3));
  }

  // ---- where the cycles repeat -----------------------------------------------------------------

  /** A spin cycle on any platform `complete_cycle` accepts; other values are left alone. */
  function CycleOf(g: Grid): Grid {
    if Rect(g) && |g| > 0 && Width(g) > 0 then Cycle(g) else g
  }

  /** `f` applied `k` times: with `CycleOf`, the platform after `k` spin cycles. */
  function Iterate<T>(f: T -> T, x: T, k: nat): T {
    if k == 0 then x else f(Iterate(f, x, k - 1))
  }

  /** However many spin cycles run, the cube-shaped rocks stay where they are. */
  lemma {:induction false} IterateKeepsCubes(g: Grid, k: nat)
    requires Rect(g) && |g| > 0 && Width(g) > 0
    ensures SameCubes(g, Iterate(CycleOf, g, k)) && |Iterate(CycleOf, g, k)| > 0 && Width(Iterate(CycleOf, g, k)) > 0
    ensures Iterate(CycleOf, g, k + 1) == Cycle(Iterate(CycleOf, g, k))
  {
    if k > 0 {
      var p := Iterate(CycleOf, g, k - 1);
      IterateKeepsCubes(g, k - 1);
      CycleKeepsCubes(p);
      assert Iterate(CycleOf, g, k) == Cycle(p);
      SameCubesTrans(g, p, Cycle(p));
    }
    var q := Iterate(CycleOf, g, k);
    assert Iterate(CycleOf, g, k + 1) == CycleOf(q);
  }

  lemma {:induction false} IterateAdd<T>(f: T -> T, x: T, a: nat, b: nat)
    ensures Iterate(f, x, a + b) == Iterate(f, Iterate(f, x, a), b)
    decreases b
  {
    if b > 0 {
      IterateAdd(f, x, a, b - 1);
    }
  }

  /**
   * The cycle `solve_part_2` looks up for `n` cycles, when the field after
   * cycle `second` was already seen after cycle `first`. Python's `%` with
   * a positive divisor agrees with Dafny's.
   */
  function TargetCycle(first: int, second: int, n: int): (t: int)
    requires first < second
    ensures first <= t < second
    ensures (n - t) % (second - first) == 0
  {
    var length := second - first;
    var t := first + (n - first) % length;
    LeastCommonMultiple.ModUnique(n - t, length, (n - first) / length, 0);
    t
  }

  /** A repeated field repeats everything after it. */
  lemma ShiftPeriod<T>(f: T -> T, x: T, first: nat, second: nat, y: nat)
    requires Iterate(f, x, first) == Iterate(f, x, second)
    ensures Iterate(f, x, second + y) == Iterate(f, x, first + y)
  {
    IterateAdd(f, x, second, y);
    IterateAdd(f, x, first, y);
  }

  lemma ModStep(m: int, length: int)
    requires m >= length > 0
    ensures m % length == (m - length) % length
  {
    var q := (m - length) / length;
    assert m == (q + 1) * length + (m - length) % length;
    LeastCommonMultiple.ModUnique(m, length, q + 1, (m - length) % length);
  }

  lemma {:induction false} Periodic<T>(f: T -> T, x: T, first: nat, second: nat, m: nat)
    requires first < second && Iterate(f, x, first) == Iterate(f, x, second)
    ensures Iterate(f, x, first + m) == Iterate(f, x, first + m % (second - first))
    decreases m
  {
    var length := second - first;
    if m < length {
      LeastCommonMultiple.ModUnique(m, length, 0, m);
    } else {
      ModStep(m, length);
      ShiftPeriod(f, x, first, second, m - length);
      assert first + m == second + (m - length);
      Periodic(f, x, first, second, m - length);
    }
  }

  /**
   * Once the field after `second` cycles repeats the one after `first`, the
   * field after any `n >= first` cycles is the one after `TargetCycle`
   * cycles (with `f` the spin cycle `CycleOf`, `x` the first platform), so
   * the load `solve_part_2` reports is the load after `n` cycles.
   */
  lemma RepeatedField<T>(f: T -> T, x: T, first: nat, second: nat, n: nat)
    requires first < second && first <= n && Iterate(f, x, first) == Iterate(f, x, second)
    ensures TargetCycle(first, second, n) >= 0
    ensures Iterate(f, x, n) == Iterate(f, x, TargetCycle(first, second, n) as nat)
  {
    Periodic(f, x, first, second, n - first);
  }

  // ---- the imperative field --------------------------------------------------------------------

  /** `try_move_to_north`, swapping cells of the field in place. */
  method TryMoveToNorth(row: nat, col: nat, field: array2<char>)
    requires row < field.Length0 && col < field.Length1
    modifies field
    ensures Cells(field) == MoveNorth(old(Cells(field)), row, col)
    decreases row
  {
    ghost var before := Cells(field);
    var entry := field[row, col];
    if entry != 'O' || row == 0 {
      return;
    }
    var north := field[row - 1, col];
    if north != '.' {
      return;
    }
    field[row, col], field[row - 1, col] := field[row - 1, col], field[row, col];
    CellsAre(field, Swap(before, row, col));
    TryMoveToNorth(row - 1, col, field);
  }

  /** `slide_rocks_to_north`: every cell, row by row from the north, west to east. */
  method SlideRocksToNorth(field: array2<char>)
    modifies field
    ensures Cells(field) == Slide(old(Cells(field)))
  {
    ghost var g := Cells(field);
    var rowCount, colCount := field.Length0, field.Length1;
    for rowIndex := 0 to rowCount
      invariant Cells(field) == SlideRows(g, rowIndex)
    {
      for colIndex := 0 to colCount
        invariant Cells(field) == SlideRow(SlideRows(g, rowIndex), rowIndex, colIndex)
      {
        TryMoveToNorth(rowIndex, colIndex, field);
      }
    }
  }

  /**
   * `np.rot90(field, 3)`, as a new array: the dimensions swap, and cell
   * `(i, j)` comes from `(rows - 1 - j, i)`. A field with no rows has a
   * width that its rows cannot show, so only there the turned cells are
   * not `Rotate` of the old ones.
   */
  method RotateClockwise(field: array2<char>) returns (turned: array2<char>)
    ensures fresh(turned)
    ensures turned.Length0 == field.Length1 && turned.Length1 == field.Length0
    ensures forall i, j | 0 <= i < turned.Length0 && 0 <= j < turned.Length1 ::
              turned[i, j] == field[field.Length0 - 1 - j, i]
    ensures field.Length0 > 0 ==> Cells(turned) == Rotate(Cells(field))
  {
    var rows, cols := field.Length0, field.Length1;
    turned := new char[cols, rows]((i, j) requires 0 <= i < cols && 0 <= j < rows reads field => field[rows - 1 - j, i]);
    if rows > 0 {
      CellsAre(turned, Rotate(Cells(field)));
    }
  }

  /** `complete_cycle`: slide north and turn clockwise, four times. */
  method CompleteCycle(field: array2<char>) returns (result: array2<char>)
    requires field.Length0 > 0 && field.Length1 > 0
    modifies field
    ensures fresh(result)
    ensures Cells(result) == Cycle(old(Cells(field)))
  {
    ghost var g := Cells(field);
    result := field;
    for k := 0 to 4
      invariant result == field || fresh(result)
      invariant k > 0 ==> fresh(result)
      invariant Cells(result) == Spins(g, k)
    {
      SlideRocksToNorth(result);
      result := RotateClockwise(result);
    }
  }

  /** `count_points`: each row's round rocks times the row's distance from the south edge. */
  method CountPoints(field: array2<char>) returns (totalPoints: int)
    ensures totalPoints == Load(Cells(field))
  {
    var rowCount := field.Length0;
    totalPoints := 0;
    for rowIndex := 0 to rowCount
      invariant totalPoints == RowsLoad(Cells(field), rowIndex)
    {
      var pointsPerRoundRock := rowCount - rowIndex;
      var rockCount := CountRocks(Row(field, rowIndex));
      totalPoints := totalPoints + rockCount * pointsPerRoundRock;
    }
  }

  /**
   * `lines_to_array`: numpy needs equally long lines and at least one of
   * them for a two-dimensional field; otherwise it raises.
   */
  method LinesToArray(lines: seq<string>) returns (field: Option<array2<char>>)
    ensures field.None? <==> |lines| == 0 || !Rect(lines)
    ensures field.Some? ==> fresh(field.value) && Cells(field.value) == lines
  {
    if |lines| == 0 || !Rect(lines) {
      return None;
    }
    var cols := |lines[0]|;
    var a := new char[|lines|, cols]((i, j) requires 0 <= i < |lines| && 0 <= j < cols => lines[i][j]);
    CellsAre(a, lines);
    return Some(a);
  }

  /** Part 1: the load after tilting north, or `None` when the field cannot be built. */
  method SolvePart1(lines: seq<string>) returns (load: Option<int>)
    ensures load == if |lines| == 0 || !Rect(lines) then None else Some(Load(Slide(lines)))
  {
    var field := LinesToArray(lines);
    if field.None? {
      return None;
    }
    SlideRocksToNorth(field.value);
    var points := CountPoints(field.value);
    return Some(points);
  }
}
