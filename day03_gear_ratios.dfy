/**
 * Day 3, "Gear Ratios" (day_3/solution.py).
 *
 * An engine schematic is a grid of characters. Its part-number candidates are
 * the maximal horizontal runs of digits; a symbol is any cell that is neither a
 * digit nor '.'; a gear is a '*' that touches exactly two numbers.
 */
module GearRatios {
  import opened Wrappers
  import opened Text

  /** `lines_to_array`: one row of characters per line; rows may differ in length. */
  type Grid = seq<string>

  /** `ArrayNumber`: a run's value, its row and the columns of its first and last digit. */
  datatype PartNumber = PartNumber(value: int, row: int, colStart: int, colEnd: int)

  /** `ArrayStar`: the position of a '*'. */
  datatype Star = Star(row: int, col: int)

  predicate InGrid(grid: Grid, row: int, col: int) {
    0 <= row < |grid| && 0 <= col < |grid[row]|
  }

  /** `ArrayHelper.contains_symbol`: a cell that does not read as a digit and is not '.'. */
  predicate ContainsSymbol(grid: Grid, row: int, col: int)
    requires InGrid(grid, row, col)
  {
    !IsDigit(grid[row][col]) && grid[row][col] != '.'
  }

  // ---- row-major order ------------------------------------------------------------

  /** Strictly earlier in row-major order. */
  predicate Before(p: (int, int), q: (int, int)) {
    p.0 < q.0 || (p.0 == q.0 && p.1 < q.1)
  }

  predicate InOrder<T>(xs: seq<T>, key: T -> (int, int)) {
    forall i, j | 0 <= i < j < |xs| :: Before(key(xs[i]), key(xs[j]))
  }

  function NumberKey(n: PartNumber): (int, int) {
    (n.row, n.colStart)
  }

  function StarKey(s: Star): (int, int) {
    (s.row, s.col)
  }

  /** Two lists in strict row-major order that hold the same elements are the same list. */
  lemma {:induction false} InOrderUnique<T>(a: seq<T>, b: seq<T>, key: T -> (int, int))
    requires InOrder(a, key) && InOrder(b, key)
    requires forall x :: x in a <==> x in b
    ensures a == b
    decreases |a|
  {
    assert |a| > 0 ==> a[0] in b;
    assert |b| > 0 ==> b[0] in a;
    if |a| > 0 {
      var m :| 0 <= m < |b| && b[m] == a[0];
      assert b[0] in a;
      var k :| 0 <= k < |a| && a[k] == b[0];
      assert m == 0;
      forall x
        ensures x in a[1..] <==> x in b[1..]
      {
        if x in a[1..] {
          var i :| 1 <= i < |a| && a[i] == x;
          assert Before(key(a[0]), key(x)) && x in a;
          var j :| 0 <= j < |b| && b[j] == x;
          assert j != 0;
          assert x == b[1..][j - 1];
        }
        if x in b[1..] {
          var j :| 1 <= j < |b| && b[j] == x;
          assert Before(key(b[0]), key(x)) && x in b;
          var i :| 0 <= i < |a| && a[i] == x;
          assert i != 0;
          assert x == a[1..][i - 1];
        }
      }
      InOrderUnique(a[1..], b[1..], key);
      assert a == [a[0]] + a[1..] && b == [b[0]] + b[1..];
    }
  }

  // ---- numbers ----------------------------------------------------------------------

  /** The first digit of a run: a digit with no digit just before it. */
  predicate RunStart(grid: Grid, row: int, col: int) {
    InGrid(grid, row, col) && IsDigit(grid[row][col]) && (col == 0 || !IsDigit(grid[row][col - 1]))
  }

  /** `n` is a maximal run of digits of the grid, carrying the decimal value of those digits. */
  predicate IsRun(grid: Grid, n: PartNumber) {
    RunStart(grid, n.row, n.colStart)
    && n.colStart <= n.colEnd < |grid[n.row]|
    && AllDigits(grid[n.row][n.colStart..n.colEnd + 1])
    && (n.colEnd + 1 == |grid[n.row]| || !IsDigit(grid[n.row][n.colEnd + 1]))
    && n.value == NatValue(grid[n.row][n.colStart..n.colEnd + 1])
  }

  /** What `get_numbers` promises: every run of the grid once, in row-major order. */
  ghost predicate IsNumberList(grid: Grid, ns: seq<PartNumber>) {
    (forall i | 0 <= i < |ns| :: IsRun(grid, ns[i]))
    && InOrder(ns, NumberKey)
    && (forall r, c | RunStart(grid, r, c) :: exists i | 0 <= i < |ns| :: ns[i].row == r && ns[i].colStart == c)
  }

  /** The digits of a run are digits cell by cell. */
  lemma RunDigit(grid: Grid, n: PartNumber, c: int)
    requires IsRun(grid, n) && n.colStart <= c <= n.colEnd
    ensures IsDigit(grid[n.row][c])
  {
    assert grid[n.row][c] == grid[n.row][n.colStart..n.colEnd + 1][c - n.colStart];
  }

  /** Where a run starts fixes where it ends and what it is worth. */
  lemma RunDeterminedByStart(grid: Grid, a: PartNumber, b: PartNumber)
    requires IsRun(grid, a) && IsRun(grid, b)
    requires a.row == b.row && a.colStart == b.colStart
    ensures a == b
  {
    if a.colEnd < b.colEnd {
      RunDigit(grid, b, a.colEnd + 1);
    } else if b.colEnd < a.colEnd {
      RunDigit(grid, a, b.colEnd + 1);
    }
  }

  /** Two numbers of a list in one row are separated by at least one cell that is not a digit. */
  lemma RunsApart(grid: Grid, ns: seq<PartNumber>, i: int, j: int)
    requires IsNumberList(grid, ns)
    requires 0 <= i < j < |ns| && ns[i].row == ns[j].row
    ensures ns[i].colEnd + 1 < ns[j].colStart
  {
    var a, b := ns[i], ns[j];
    assert IsRun(grid, a) && IsRun(grid, b);
    assert Before(NumberKey(a), NumberKey(b));
    if b.colStart <= a.colEnd {
      RunDigit(grid, a, b.colStart - 1);
    }
  }

  /** There is only one list that meets what `get_numbers` promises. */
  lemma NumberListUnique(grid: Grid, a: seq<PartNumber>, b: seq<PartNumber>)
    requires IsNumberList(grid, a) && IsNumberList(grid, b)
    ensures a == b
  {
    forall x
      ensures x in a <==> x in b
    {
      if x in a {
        var i :| 0 <= i < |a| && a[i] == x;
        assert IsRun(grid, x) && RunStart(grid, x.row, x.colStart);
        var j :| 0 <= j < |b| && b[j].row == x.row && b[j].colStart == x.colStart;
        RunDeterminedByStart(grid, x, b[j]);
      }
      if x in b {
        var j :| 0 <= j < |b| && b[j] == x;
        assert IsRun(grid, x) && RunStart(grid, x.row, x.colStart);
        var i :| 0 <= i < |a| && a[i].row == x.row && a[i].colStart == x.colStart;
        RunDeterminedByStart(grid, x, a[i]);
      }
    }
    InOrderUnique(a, b, NumberKey);
  }

  /**
   * The inner loop of `get_numbers`: from the first digit of a run, step right
   * while the cells are digits, accumulating the decimal value.
   */
  method ScanRun(line: string, start: int) returns (number: int, next: int)
    requires 0 <= start < |line| && IsDigit(line[start])
    ensures start < next <= |line| && AllDigits(line[start..next])
    ensures next == |line| || !IsDigit(line[next])
    ensures number == NatValue(line[start..next])
  {
    var col := start;
    number := DigitValue(line[col]);
    assert line[start..col + 1][..0] == [];
    var success := true;
    while success
      invariant success ==> start <= col < |line| && AllDigits(line[start..col + 1]) && number == NatValue(line[start..col + 1])
      invariant !success ==> start < col <= |line| && AllDigits(line[start..col]) && number == NatValue(line[start..col])
      invariant !success ==> col == |line| || !IsDigit(line[col])
      decreases |line| - col
    {
      col := col + 1;
      var value := 0;
      if col < |line| {
        success := IsDigit(line[col]);
        if success {
          value := DigitValue(line[col]);
        }
      } else {
        success := false;
      }
      if success {
        assert line[start..col + 1][..col - start] == line[start..col];
        number := 10 * number + value;
      }
    }
    next := col;
  }

  /** `ArrayHelper.get_numbers`: scan each row left to right and record every run of digits. */
  method GetNumbers(grid: Grid) returns (numbers: seq<PartNumber>)
    ensures IsNumberList(grid, numbers)
  {
    numbers := [];
    for row := 0 to |grid|
      invariant forall i | 0 <= i < |numbers| :: IsRun(grid, numbers[i]) && numbers[i].row < row
      invariant InOrder(numbers, NumberKey)
      invariant forall r, c | RunStart(grid, r, c) && r < row ::
        exists i | 0 <= i < |numbers| :: numbers[i].row == r && numbers[i].colStart == c
    {
      var line := grid[row];
      var col := 0;
      while col < |line|
        invariant 0 <= col <= |line|
        invariant col == 0 || col == |line| || !IsDigit(line[col - 1]) || !IsDigit(line[col])
        invariant forall i | 0 <= i < |numbers| :: IsRun(grid, numbers[i]) && Before(NumberKey(numbers[i]), (row, col))
        invariant InOrder(numbers, NumberKey)
        invariant forall r, c | RunStart(grid, r, c) && Before((r, c), (row, col)) ::
          exists i | 0 <= i < |numbers| :: numbers[i].row == r && numbers[i].colStart == c
      {
        if IsDigit(line[col]) {
          var number, next := ScanRun(line, col);
          AddRun(grid, numbers, row, col, next, number);
          numbers := numbers + [PartNumber(number, row, col, next - 1)];
          col := next;
        } else {
          col := col + 1;
        }
      }
    }
  }

  /** Appending the run found at (row, col) keeps every invariant of the scan, with the cursor moved past it. */
  lemma AddRun(grid: Grid, numbers: seq<PartNumber>, row: int, col: int, next: int, number: int)
    requires 0 <= row < |grid| && 0 <= col < next <= |grid[row]|
    requires RunStart(grid, row, col)
    requires AllDigits(grid[row][col..next]) && (next == |grid[row]| || !IsDigit(grid[row][next]))
    requires number == NatValue(grid[row][col..next])
    requires forall i | 0 <= i < |numbers| :: IsRun(grid, numbers[i]) && Before(NumberKey(numbers[i]), (row, col))
    requires InOrder(numbers, NumberKey)
    requires forall r, c | RunStart(grid, r, c) && Before((r, c), (row, col)) ::
      exists i | 0 <= i < |numbers| :: numbers[i].row == r && numbers[i].colStart == c
    ensures var ns := numbers + [PartNumber(number, row, col, next - 1)];
      && (forall i | 0 <= i < |ns| :: IsRun(grid, ns[i]) && Before(NumberKey(ns[i]), (row, next)))
      && InOrder(ns, NumberKey)
      && (forall r, c | RunStart(grid, r, c) && Before((r, c), (row, next)) ::
            exists i | 0 <= i < |ns| :: ns[i].row == r && ns[i].colStart == c)
  {
    var n := PartNumber(number, row, col, next - 1);
    var ns := numbers + [n];
    assert IsRun(grid, n);
    forall r, c | RunStart(grid, r, c) && Before((r, c), (row, next))
      ensures exists i | 0 <= i < |ns| :: ns[i].row == r && ns[i].colStart == c
    {
      if Before((r, c), (row, col)) {
        var i :| 0 <= i < |numbers| && numbers[i].row == r && numbers[i].colStart == c;
        assert ns[i] == numbers[i];
      } else if c == col {
        assert ns[|numbers|] == n;
      } else {
        assert false;
      }
    }
  }

  // ---- stars ------------------------------------------------------------------------

  predicate IsStar(grid: Grid, row: int, col: int) {
    InGrid(grid, row, col) && grid[row][col] == '*'
  }

  /** What `get_stars` promises: every '*' cell once, in row-major order. */
  ghost predicate IsStarList(grid: Grid, ss: seq<Star>) {
    (forall i | 0 <= i < |ss| :: IsStar(grid, ss[i].row, ss[i].col))
    && InOrder(ss, StarKey)
    && (forall r, c | IsStar(grid, r, c) :: Star(r, c) in ss)
  }

  /** `ArrayHelper.get_stars`: visit the cells row by row and collect the '*' ones. */
  method GetStars(grid: Grid) returns (stars: seq<Star>)
    ensures IsStarList(grid, stars)
  {
    stars := [];
    for row := 0 to |grid|
      invariant forall i | 0 <= i < |stars| :: IsStar(grid, stars[i].row, stars[i].col) && stars[i].row < row
      invariant InOrder(stars, StarKey)
      invariant forall r, c | IsStar(grid, r, c) && r < row :: Star(r, c) in stars
    {
      for col := 0 to |grid[row]|
        invariant forall i | 0 <= i < |stars| :: IsStar(grid, stars[i].row, stars[i].col) && Before(StarKey(stars[i]), (row, col))
        invariant InOrder(stars, StarKey)
        invariant forall r, c | IsStar(grid, r, c) && Before((r, c), (row, col)) :: Star(r, c) in stars
      {
        if grid[row][col] == '*' {
          stars := stars + [Star(row, col)];
        }
      }
    }
  }

  /** There is only one list that meets what `get_stars` promises. */
  lemma StarListUnique(grid: Grid, a: seq<Star>, b: seq<Star>)
    requires IsStarList(grid, a) && IsStarList(grid, b)
    ensures a == b
  {
    forall x
      ensures x in a <==> x in b
    {
      if x in a {
        var i :| 0 <= i < |a| && a[i] == x;
        assert IsStar(grid, x.row, x.col);
      }
      if x in b {
        var j :| 0 <= j < |b| && b[j] == x;
        assert IsStar(grid, x.row, x.col);
      }
    }
    InOrderUnique(a, b, StarKey);
  }

  // ---- touching ---------------------------------------------------------------------

  /** Some in-grid cell of row `row` with a column from `lo` to `hi - 1` holds a symbol. */
  function SymbolInRow(grid: Grid, row: int, lo: int, hi: int): (b: bool)
    ensures b <==> (exists c | lo <= c < hi :: InGrid(grid, row, c) && ContainsSymbol(grid, row, c))
    decreases hi - lo
  {
    if lo >= hi then false
    else (InGrid(grid, row, lo) && ContainsSymbol(grid, row, lo)) || SymbolInRow(grid, row, lo + 1, hi)
  }

  /**
   * `ArrayNumber.touches_symbol`: search the rows above, at and below the number,
   * from one column before its first digit to one after its last, skipping cells
   * outside the grid.
   */
  function TouchesSymbol(grid: Grid, n: PartNumber): (b: bool)
    ensures b <==> (exists r, c | n.row - 1 <= r <= n.row + 1 && n.colStart - 1 <= c <= n.colEnd + 1 ::
      InGrid(grid, r, c) && ContainsSymbol(grid, r, c))
  {
    SymbolInRow(grid, n.row - 1, n.colStart - 1, n.colEnd + 2)
    || SymbolInRow(grid, n.row, n.colStart - 1, n.colEnd + 2)
    || SymbolInRow(grid, n.row + 1, n.colStart - 1, n.colEnd + 2)
  }

  /** `ArrayStar.is_touching`: the star lies within one row and one column of the number's digits. */
  predicate IsTouching(s: Star, n: PartNumber) {
    n.row - 1 <= s.row <= n.row + 1 && n.colStart - 1 <= s.col <= n.colEnd + 1
  }

  /** A '*' is a symbol, so a number a star touches touches a symbol. */
  lemma TouchedByStar(grid: Grid, s: Star, n: PartNumber)
    requires IsStar(grid, s.row, s.col) && IsTouching(s, n)
    ensures TouchesSymbol(grid, n)
  {
    assert InGrid(grid, s.row, s.col) && ContainsSymbol(grid, s.row, s.col);
  }

  /** The positions from `from` on of the numbers the star touches, in list order. */
  function TouchingIndices(s: Star, ns: seq<PartNumber>, from: nat): (ix: seq<nat>)
    requires from <= |ns|
    ensures forall k | 0 <= k < |ix| :: from <= ix[k] < |ns| && IsTouching(s, ns[ix[k]])
    ensures forall k, l | 0 <= k < l < |ix| :: ix[k] < ix[l]
    ensures forall i | from <= i < |ns| && IsTouching(s, ns[i]) :: i in ix
    decreases |ns| - from
  {
    if from == |ns| then []
    else if IsTouching(s, ns[from]) then [from] + TouchingIndices(s, ns, from + 1)
    else TouchingIndices(s, ns, from + 1)
  }

  /** `ArrayStar.try_get_gear_ration`: the product of the numbers touching the star when exactly two do. */
  function GearRatio(s: Star, ns: seq<PartNumber>): Option<int> {
    var ix := TouchingIndices(s, ns, 0);
    if |ix| != 2 then None else Some(ns[ix[0]].value * ns[ix[1]].value)
  }

  /** The numbers at `i` and `j` touch the star and no other number does. */
  predicate OnlyTouching(s: Star, ns: seq<PartNumber>, i: int, j: int)
    requires 0 <= i < j < |ns|
  {
    IsTouching(s, ns[i]) && IsTouching(s, ns[j])
    && forall k | 0 <= k < |ns| && IsTouching(s, ns[k]) :: k == i || k == j
  }

  /** A star is a gear exactly when two numbers touch it, and its ratio is their product. */
  lemma GearRatioExactlyTwo(s: Star, ns: seq<PartNumber>)
    ensures GearRatio(s, ns).Some? <==> (exists i, j | 0 <= i < j < |ns| :: OnlyTouching(s, ns, i, j))
    ensures forall i, j | 0 <= i < j < |ns| && OnlyTouching(s, ns, i, j) ::
      GearRatio(s, ns) == Some(ns[i].value * ns[j].value)
  {
    var ix := TouchingIndices(s, ns, 0);
    if |ix| == 2 {
      assert OnlyTouching(s, ns, ix[0], ix[1]);
    }
    forall i, j | 0 <= i < j < |ns| && OnlyTouching(s, ns, i, j)
      ensures GearRatio(s, ns) == Some(ns[i].value * ns[j].value)
    {
      OnlyTouchingIndices(s, ns, i, j);
    }
  }

  /** When only the numbers at `i` and `j` touch the star, they are the touching indices. */
  lemma OnlyTouchingIndices(s: Star, ns: seq<PartNumber>, i: nat, j: nat)
    requires 0 <= i < j < |ns| && OnlyTouching(s, ns, i, j)
    ensures TouchingIndices(s, ns, 0) == [i, j]
  {
    var ix := TouchingIndices(s, ns, 0);
    assert i in ix && j in ix;
    assert forall k | 0 <= k < |ix| :: ix[k] == i || ix[k] == j;
    IncreasingWithin(ix, {i, j});
  }

  /** A strictly increasing list whose elements all lie in `values` is no longer than `values` is large. */
  lemma {:induction false} IncreasingWithin(ix: seq<nat>, values: set<int>)
    requires forall k, l | 0 <= k < l < |ix| :: ix[k] < ix[l]
    requires forall k | 0 <= k < |ix| :: ix[k] in values
    ensures |ix| <= |values|
  {
    if |ix| > 0 {
      var rest := values - {ix[0]};
      assert values * {ix[0]} == {ix[0]};
      forall k | 0 <= k < |ix| - 1
        ensures ix[1..][k] in rest
      {
        assert ix[0] < ix[k + 1];
      }
      IncreasingWithin(ix[1..], rest);
    }
  }

  // ---- the two parts ----------------------------------------------------------------

  /** The positions from `from` on of the numbers that touch a symbol, in increasing order. */
  function PartIndices(grid: Grid, ns: seq<PartNumber>, from: nat): (ix: seq<nat>)
    requires from <= |ns|
    ensures forall k | 0 <= k < |ix| :: from <= ix[k] < |ns| && TouchesSymbol(grid, ns[ix[k]])
    ensures forall k, l | 0 <= k < l < |ix| :: ix[k] < ix[l]
    ensures forall i | from <= i < |ns| && TouchesSymbol(grid, ns[i]) :: i in ix
    decreases |ns| - from
  {
    if from == |ns| then []
    else if TouchesSymbol(grid, ns[from]) then [from] + PartIndices(grid, ns, from + 1)
    else PartIndices(grid, ns, from + 1)
  }

  /** The numbers from `from` on that touch a symbol, in list order. */
  function PartNumbersFrom(grid: Grid, ns: seq<PartNumber>, from: nat): (ps: seq<PartNumber>)
    requires from <= |ns|
    ensures var ix := PartIndices(grid, ns, from);
      |ps| == |ix| && forall k | 0 <= k < |ps| :: ps[k] == ns[ix[k]]
    decreases |ns| - from
  {
    if from == |ns| then []
    else if TouchesSymbol(grid, ns[from]) then [ns[from]] + PartNumbersFrom(grid, ns, from + 1)
    else PartNumbersFrom(grid, ns, from + 1)
  }

  /**
   * The numbers that touch a symbol, in list order, each once for every
   * place it has in `ns`: entry `k` is the `k`-th touching number.
   */
  function PartNumbers(grid: Grid, ns: seq<PartNumber>): (ps: seq<PartNumber>)
    ensures var ix := PartIndices(grid, ns, 0);
      |ps| == |ix| && forall k | 0 <= k < |ps| :: ps[k] == ns[ix[k]]
    ensures forall x | x in ps :: x in ns && TouchesSymbol(grid, x)
    ensures forall x | x in ns && TouchesSymbol(grid, x) :: x in ps
  {
    var ps := PartNumbersFrom(grid, ns, 0);
    var ix := PartIndices(grid, ns, 0);
    forall x | x in ns && TouchesSymbol(grid, x) ensures x in ps {
      var i :| 0 <= i < |ns| && ns[i] == x;
      var k :| 0 <= k < |ix| && ix[k] == i;
      assert ps[k] == x;
    }
    ps
  }

  function SumValues(ns: seq<PartNumber>): int {
    if |ns| == 0 then 0 else ns[0].value + SumValues(ns[1..])
  }

  /** `solve_part_1`: the sum of the values of the numbers that touch a symbol. */
  method SolvePart1(grid: Grid) returns (total: int)
    ensures forall ns | IsNumberList(grid, ns) :: total == SumValues(PartNumbers(grid, ns))
  {
    var numbers := GetNumbers(grid);
    total := SumValues(PartNumbers(grid, numbers));
    forall ns | IsNumberList(grid, ns)
      ensures total == SumValues(PartNumbers(grid, ns))
    {
      NumberListUnique(grid, numbers, ns);
    }
  }

  /** The gear ratios of the stars, added in star order. */
  function GearSum(ss: seq<Star>, ns: seq<PartNumber>): int {
    if |ss| == 0 then 0
    else
      var ratio := GearRatio(ss[|ss| - 1], ns);
      GearSum(ss[..|ss| - 1], ns) + (if ratio.Some? then ratio.value else 0)
  }

  /** `solve_part_2`: the sum of the gear ratios of all stars. */
  method SolvePart2(grid: Grid) returns (total: int)
    ensures forall ns, ss | IsNumberList(grid, ns) && IsStarList(grid, ss) :: total == GearSum(ss, ns)
  {
    var numbers := GetNumbers(grid);
    var stars := GetStars(grid);
    total := 0;
    for i := 0 to |stars|
      invariant total == GearSum(stars[..i], numbers)
    {
      var ratio := GearRatio(stars[i], numbers);
      GearSumStep(stars, i, numbers);
      if ratio.Some? {
        total := total + ratio.value;
      }
    }
    assert stars[..|stars|] == stars;
    GearSumOfLists(grid, numbers, stars);
  }

  /** One more star adds its gear ratio, if it has one. */
  lemma GearSumStep(ss: seq<Star>, i: nat, ns: seq<PartNumber>)
    requires i < |ss|
    ensures GearSum(ss[..i + 1], ns) ==
              GearSum(ss[..i], ns) + (if GearRatio(ss[i], ns).Some? then GearRatio(ss[i], ns).value else 0)
  {
    assert ss[..i + 1][..i] == ss[..i];
  }

  /** The number and star lists of a grid are unique, so so is their gear sum. */
  lemma GearSumOfLists(grid: Grid, numbers: seq<PartNumber>, stars: seq<Star>)
    requires IsNumberList(grid, numbers) && IsStarList(grid, stars)
    ensures forall ns, ss | IsNumberList(grid, ns) && IsStarList(grid, ss) :: GearSum(stars, numbers) == GearSum(ss, ns)
  {
    forall ns, ss | IsNumberList(grid, ns) && IsStarList(grid, ss)
      ensures GearSum(stars, numbers) == GearSum(ss, ns)
    {
      NumberListUnique(grid, numbers, ns);
      StarListUnique(grid, stars, ss);
    }
  }
}
