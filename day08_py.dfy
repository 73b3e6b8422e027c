/**
 * Day 8, Python solution: antennas are grouped by the character on their
 * cell; every pair of antennas of one frequency puts an antinode on each
 * side of the pair, at the same distance again, and the answer counts the
 * distinct antinodes that fall inside the grid.
 */
module Day08Py {
  import opened Wrappers
  import opened PyText

  /** A (row, column) cell. */
  type Pos = (int, int)

  predicate Inside(rows: int, cols: int, p: Pos)
  {
    0 <= p.0 < rows && 0 <= p.1 < cols
  }

  /** `a` comes before `b` in the row-major order `map_grid` scans in. */
  predicate Before(a: Pos, b: Pos)
  {
    a.0 < b.0 || (a.0 == b.0 && a.1 < b.1)
  }

  /** Every row is at least `cols` long, so `grid[i][j]` exists for `j < cols`. */
  predicate Covers(grid: seq<seq<char>>, cols: int)
  {
    forall i :: 0 <= i < |grid| ==> cols <= |grid[i]|
  }

  /** The cell `p` lies in the first `cols` columns and holds `f`. */
  predicate Holds(grid: seq<seq<char>>, cols: int, p: Pos, f: char)
  {
    Inside(|grid|, cols, p) && p.1 < |grid[p.0]| && grid[p.0][p.1] == f
  }

  // --------------------------------------------------------------- map_grid

  /**
   * The lists `map_grid` has built once every cell before `next` has been
   * scanned: keys are the characters other than `.` that were met, each
   * list holds exactly the scanned cells with its character, in scan order.
   */
  ghost predicate MappedBefore(grid: seq<seq<char>>, cols: int, antennas: map<char, seq<Pos>>, next: Pos)
  {
    (forall f :: f in antennas ==> f != '.' && antennas[f] != [])
    && (forall f, k :: f in antennas && 0 <= k < |antennas[f]| ==>
          Holds(grid, cols, antennas[f][k], f) && Before(antennas[f][k], next))
    && (forall f, k, l :: f in antennas && 0 <= k < l < |antennas[f]| ==> Before(antennas[f][k], antennas[f][l]))
    && (forall i, j :: 0 <= i < |grid| && 0 <= j < cols && j < |grid[i]| && Before((i, j), next) && grid[i][j] != '.' ==>
          grid[i][j] in antennas && (i, j) in antennas[grid[i][j]])
  }

  /** What `map_grid` returns: every cell other than `.` listed under its character, in row-major order. */
  ghost predicate Mapped(grid: seq<seq<char>>, cols: int, antennas: map<char, seq<Pos>>)
  {
    MappedBefore(grid, cols, antennas, (|grid|, 0))
  }

  /** `antennas[frequency].append(p)` on a `defaultdict(list)`. */
  function DefaultAppend(antennas: map<char, seq<Pos>>, frequency: char, p: Pos): (r: map<char, seq<Pos>>)
    ensures r.Keys == antennas.Keys + {frequency}
    ensures r[frequency] == (if frequency in antennas then antennas[frequency] else []) + [p]
    ensures forall f :: f in antennas && f != frequency ==> r[f] == antennas[f]
  {
    antennas[frequency := (if frequency in antennas then antennas[frequency] else []) + [p]]
  }

  /** Scanning one more cell keeps the lists exact. */
  lemma ScanCell(grid: seq<seq<char>>, cols: int, antennas: map<char, seq<Pos>>, i: int, j: int)
    requires 0 <= i < |grid| && 0 <= j < cols && j < |grid[i]|
    requires MappedBefore(grid, cols, antennas, (i, j))
    ensures var f := grid[i][j];
      MappedBefore(grid, cols, if f == '.' then antennas else DefaultAppend(antennas, f, (i, j)), (i, j + 1))
  {
    if grid[i][j] != '.' {
      ScanCellListed(grid, cols, antennas, i, j);
      ScanCellOrdered(grid, cols, antennas, i, j);
      ScanCellComplete(grid, cols, antennas, i, j);
    }
  }

  /** After the append every listed cell holds its key and was scanned. */
  lemma ScanCellListed(grid: seq<seq<char>>, cols: int, antennas: map<char, seq<Pos>>, i: int, j: int)
    requires 0 <= i < |grid| && 0 <= j < cols && j < |grid[i]| && grid[i][j] != '.'
    requires MappedBefore(grid, cols, antennas, (i, j))
    ensures var r := DefaultAppend(antennas, grid[i][j], (i, j));
      forall g, k :: g in r && 0 <= k < |r[g]| ==> Holds(grid, cols, r[g][k], g) && Before(r[g][k], (i, j + 1))
  {
    var f := grid[i][j];
    var r := DefaultAppend(antennas, f, (i, j));
    forall g, k | g in r && 0 <= k < |r[g]|
      ensures Holds(grid, cols, r[g][k], g) && Before(r[g][k], (i, j + 1))
    {
      if g == f && k == |r[g]| - 1 {
        assert r[g][k] == (i, j);
      } else {
        assert g in antennas && r[g][k] == antennas[g][k];
      }
    }
  }

  /** The appended cell comes after every cell already listed. */
  lemma ScanCellOrdered(grid: seq<seq<char>>, cols: int, antennas: map<char, seq<Pos>>, i: int, j: int)
    requires 0 <= i < |grid| && 0 <= j < cols && j < |grid[i]| && grid[i][j] != '.'
    requires MappedBefore(grid, cols, antennas, (i, j))
    ensures var r := DefaultAppend(antennas, grid[i][j], (i, j));
      forall g, k, l :: g in r && 0 <= k < l < |r[g]| ==> Before(r[g][k], r[g][l])
  {
    var f := grid[i][j];
    var r := DefaultAppend(antennas, f, (i, j));
    forall g, k, l | g in r && 0 <= k < l < |r[g]| ensures Before(r[g][k], r[g][l]) {
      if g == f && l == |r[g]| - 1 {
        assert r[g][k] == antennas[g][k];
      } else {
        assert r[g][k] == antennas[g][k] && r[g][l] == antennas[g][l];
      }
    }
  }

  /** Every scanned antenna, the new one included, is listed under its character. */
  lemma ScanCellComplete(grid: seq<seq<char>>, cols: int, antennas: map<char, seq<Pos>>, i: int, j: int)
    requires 0 <= i < |grid| && 0 <= j < cols && j < |grid[i]| && grid[i][j] != '.'
    requires MappedBefore(grid, cols, antennas, (i, j))
    ensures var r := DefaultAppend(antennas, grid[i][j], (i, j));
      forall i', j' :: 0 <= i' < |grid| && 0 <= j' < cols && j' < |grid[i']| && Before((i', j'), (i, j + 1)) && grid[i'][j'] != '.' ==>
        grid[i'][j'] in r && (i', j') in r[grid[i'][j']]
  {
    var f := grid[i][j];
    var r := DefaultAppend(antennas, f, (i, j));
    forall i', j' | 0 <= i' < |grid| && 0 <= j' < cols && j' < |grid[i']| && Before((i', j'), (i, j + 1)) && grid[i'][j'] != '.'
      ensures grid[i'][j'] in r && (i', j') in r[grid[i'][j']]
    {
      if (i', j') != (i, j) {
        var g := grid[i'][j'];
        assert (i', j') in antennas[g];
        if g == f {
          assert antennas[g] <= r[g];
        }
      } else {
        assert r[f][|r[f]| - 1] == (i, j);
      }
    }
  }

  /** The end of a row: every scanned cell lies before the start of the next row. */
  lemma NextRow(grid: seq<seq<char>>, cols: int, antennas: map<char, seq<Pos>>, i: int)
    requires MappedBefore(grid, cols, antennas, (i, cols))
    ensures MappedBefore(grid, cols, antennas, (i + 1, 0))
  {
  }

  /**
   * `map_grid`: scans the rows up to the width of the first one. A row
   * shorter than the first raises IndexError.
   */
  method MapGrid(grid: seq<seq<char>>) returns (r: Result<map<char, seq<Pos>>, Exc>)
    ensures r.Err? <==> grid != [] && !Covers(grid, |grid[0]|)
    ensures r.Err? ==> r.error == IndexError
    ensures r.Ok? ==> Mapped(grid, if grid == [] then 0 else |grid[0]|, r.value)
  {
    var antennas: map<char, seq<Pos>> := map[];
    var i := 0;
    while i < |grid|
      invariant i <= |grid|
      invariant forall i' :: 0 <= i' < i ==> |grid[0]| <= |grid[i']|
      invariant MappedBefore(grid, if grid == [] then 0 else |grid[0]|, antennas, (i, 0))
    {
      var row := ScanRow(grid, i, antennas);
      if row.Err? {
        return row;
      }
      antennas := row.value;
      i := i + 1;
    }
    return Ok(antennas);
  }

  /** The inner loop of `map_grid` over row `i`. */
  method ScanRow(grid: seq<seq<char>>, i: int, antennas: map<char, seq<Pos>>) returns (r: Result<map<char, seq<Pos>>, Exc>)
    requires 0 <= i < |grid| && MappedBefore(grid, |grid[0]|, antennas, (i, 0))
    ensures r.Err? <==> |grid[i]| < |grid[0]|
    ensures r.Err? ==> r.error == IndexError
    ensures r.Ok? ==> MappedBefore(grid, |grid[0]|, r.value, (i + 1, 0))
  {
    var cols := |grid[0]|;
    var acc := antennas;
    var j := 0;
    while j < cols
      invariant j <= cols && j <= |grid[i]|
      invariant MappedBefore(grid, cols, acc, (i, j))
    {
      var frequency := PyAt(grid[i], j);
      if frequency.Err? {
        return Err(frequency.error);
      }
      ScanCell(grid, cols, acc, i, j);
      if frequency.value != '.' {
        acc := DefaultAppend(acc, frequency.value, (i, j));
      }
      j := j + 1;
    }
    NextRow(grid, cols, acc, i);
    return Ok(acc);
  }

  /** An antenna's cell is listed under its own character and under no other. */
  lemma CellInOneList(grid: seq<seq<char>>, cols: int, antennas: map<char, seq<Pos>>, i: int, j: int)
    requires Mapped(grid, cols, antennas)
    requires 0 <= i < |grid| && 0 <= j < cols && j < |grid[i]| && grid[i][j] != '.'
    ensures grid[i][j] in antennas
    ensures forall f :: f in antennas ==> ((i, j) in antennas[f] <==> f == grid[i][j])
  {
    assert Before((i, j), (|grid|, 0));
    forall f | f in antennas && (i, j) in antennas[f] ensures f == grid[i][j] {
      var k :| 0 <= k < |antennas[f]| && antennas[f][k] == (i, j);
      assert Holds(grid, cols, antennas[f][k], f);
    }
  }

  /** A strictly row-major list is determined by the cells it holds. */
  lemma {:induction false} OrderedUnique(xs: seq<Pos>, ys: seq<Pos>)
    requires forall k, l :: 0 <= k < l < |xs| ==> Before(xs[k], xs[l])
    requires forall k, l :: 0 <= k < l < |ys| ==> Before(ys[k], ys[l])
    requires forall p :: p in xs <==> p in ys
    decreases |xs|
    ensures xs == ys
  {
    assert ys == [] || ys[0] in ys;
    if xs != [] {
      assert xs[0] in xs;
      var j :| 0 <= j < |ys| && ys[j] == xs[0];
      var i :| 0 <= i < |xs| && xs[i] == ys[0];
      assert j > 0 ==> Before(ys[0], ys[j]);
      assert i > 0 ==> Before(xs[0], xs[i]);
      BeforeAsymmetric(xs[0], ys[0]);
      assert j == 0;
      forall p ensures p in xs[1..] <==> p in ys[1..] {
        if p in xs[1..] {
          var k :| 1 <= k < |xs| && xs[k] == p;
          assert Before(xs[0], xs[k]);
          assert p in ys;
          var l :| 0 <= l < |ys| && ys[l] == p;
          assert l != 0;
          assert ys[l] == ys[1..][l - 1];
        }
        if p in ys[1..] {
          var l :| 1 <= l < |ys| && ys[l] == p;
          assert Before(ys[0], ys[l]);
          assert p in xs;
          var k :| 0 <= k < |xs| && xs[k] == p;
          assert k != 0;
          assert xs[k] == xs[1..][k - 1];
        }
      }
      OrderedUnique(xs[1..], ys[1..]);
      assert xs == [xs[0]] + xs[1..] && ys == [ys[0]] + ys[1..];
    }
  }

  lemma BeforeAsymmetric(a: Pos, b: Pos)
    ensures !(Before(a, b) && Before(b, a))
  {
  }

  /** The description of `map_grid`'s result fits one map only. */
  lemma MappedUnique(grid: seq<seq<char>>, cols: int, m1: map<char, seq<Pos>>, m2: map<char, seq<Pos>>)
    requires Mapped(grid, cols, m1) && Mapped(grid, cols, m2)
    ensures m1 == m2
  {
    forall f | f in m1 ensures f in m2 {
      KeyListed(grid, cols, m1, m2, f);
    }
    forall f | f in m2 ensures f in m1 {
      KeyListed(grid, cols, m2, m1, f);
    }
    forall f | f in m1 ensures m1[f] == m2[f] {
      forall p ensures p in m1[f] <==> p in m2[f] {
        SameCells(grid, cols, m1, m2, f, p);
        SameCells(grid, cols, m2, m1, f, p);
      }
      OrderedUnique(m1[f], m2[f]);
    }
  }

  lemma KeyListed(grid: seq<seq<char>>, cols: int, m1: map<char, seq<Pos>>, m2: map<char, seq<Pos>>, f: char)
    requires Mapped(grid, cols, m1) && Mapped(grid, cols, m2) && f in m1
    ensures f in m2
  {
    var p := m1[f][0];
    assert Holds(grid, cols, p, f);
    assert Before(p, (|grid|, 0));
  }

  lemma SameCells(grid: seq<seq<char>>, cols: int, m1: map<char, seq<Pos>>, m2: map<char, seq<Pos>>, f: char, p: Pos)
    requires Mapped(grid, cols, m1) && Mapped(grid, cols, m2) && f in m1 && f in m2
    ensures p in m1[f] ==> p in m2[f]
  {
    if p in m1[f] {
      var k :| 0 <= k < |m1[f]| && m1[f][k] == p;
      assert Holds(grid, cols, p, f);
      assert Before(p, (|grid|, 0));
    }
  }

  // -------------------------------------------------------------- antinodes

  /**
   * `a + (a - b)`: the cell beyond `a`, in line with `b` and twice as far from
   * `b` as `a` is, so `a` is the midpoint; it is `a` itself only when `b` is.
   */
  function Reflect(a: Pos, b: Pos): (r: Pos)
    ensures r.0 + b.0 == 2 * a.0 && r.1 + b.1 == 2 * a.1
    ensures r == a <==> a == b
  {
    (2 * a.0 - b.0, 2 * a.1 - b.1)
  }

  /** The antinodes one pair adds: both candidates that fall inside the grid. */
  function PairNodes(a: Pos, b: Pos, rows: int, cols: int): (r: set<Pos>)
    ensures r <= {Reflect(a, b), Reflect(b, a)}
    ensures forall p :: p in r ==> Inside(rows, cols, p)
  {
    (if Inside(rows, cols, Reflect(a, b)) then {Reflect(a, b)} else {})
    + (if Inside(rows, cols, Reflect(b, a)) then {Reflect(b, a)} else {})
  }

  /** The antinodes of the pairs `(ps[k], ps[m])` for `k < m < l`. */
  function RowNodes(ps: seq<Pos>, k: nat, l: nat, rows: int, cols: int): set<Pos>
    requires k < l <= |ps|
    decreases l
  {
    if l == k + 1 then {} else RowNodes(ps, k, l - 1, rows, cols) + PairNodes(ps[k], ps[l - 1], rows, cols)
  }

  /** The antinodes of the pairs `itertools.combinations(ps, 2)` yields with first index below `k`. */
  function ListNodes(ps: seq<Pos>, k: nat, rows: int, cols: int): set<Pos>
    requires k <= |ps|
  {
    if k == 0 then {} else ListNodes(ps, k - 1, rows, cols) + RowNodes(ps, k - 1, |ps|, rows, cols)
  }

  /** Some pair `(ps[k], ps[m])` with `k < m < l` has `p` among its antinodes. */
  ghost predicate InRow(ps: seq<Pos>, k: nat, l: nat, rows: int, cols: int, p: Pos)
    requires l <= |ps|
  {
    exists m :: k < m < l && p in PairNodes(ps[k], ps[m], rows, cols)
  }

  /** Some pair `(ps[k], ps[m])` with `k < m` and `k` below `n` has `p` among its antinodes. */
  ghost predicate InList(ps: seq<Pos>, n: nat, rows: int, cols: int, p: Pos)
    requires n <= |ps|
  {
    exists k :: 0 <= k < n && InRow(ps, k, |ps|, rows, cols, p)
  }

  lemma {:induction false} RowNodesIff(ps: seq<Pos>, k: nat, l: nat, rows: int, cols: int, p: Pos)
    requires k < l <= |ps|
    decreases l
    ensures p in RowNodes(ps, k, l, rows, cols) <==> InRow(ps, k, l, rows, cols, p)
  {
    if l > k + 1 {
      RowNodesIff(ps, k, l - 1, rows, cols, p);
      if InRow(ps, k, l, rows, cols, p) && !InRow(ps, k, l - 1, rows, cols, p) {
        var m :| k < m < l && p in PairNodes(ps[k], ps[m], rows, cols);
        assert m == l - 1;
      }
      if InRow(ps, k, l - 1, rows, cols, p) {
        var m :| k < m < l - 1 && p in PairNodes(ps[k], ps[m], rows, cols);
        assert InRow(ps, k, l, rows, cols, p);
      }
      if p in PairNodes(ps[k], ps[l - 1], rows, cols) {
        assert InRow(ps, k, l, rows, cols, p);
      }
    }
  }

  lemma {:induction false} ListNodesIff(ps: seq<Pos>, n: nat, rows: int, cols: int, p: Pos)
    requires n <= |ps|
    ensures p in ListNodes(ps, n, rows, cols) <==> InList(ps, n, rows, cols, p)
  {
    if n > 0 {
      ListNodesIff(ps, n - 1, rows, cols, p);
      RowNodesIff(ps, n - 1, |ps|, rows, cols, p);
      if InList(ps, n, rows, cols, p) && !InList(ps, n - 1, rows, cols, p) {
        var k :| 0 <= k < n && InRow(ps, k, |ps|, rows, cols, p);
        assert k == n - 1;
      }
      if InList(ps, n - 1, rows, cols, p) {
        var k :| 0 <= k < n - 1 && InRow(ps, k, |ps|, rows, cols, p);
        assert InList(ps, n, rows, cols, p);
      }
      if InRow(ps, n - 1, |ps|, rows, cols, p) {
        assert InList(ps, n, rows, cols, p);
      }
    }
  }

  /** A cell is an antinode of some pair of `ps`, taken in either order. */
  ghost predicate FromPair(ps: seq<Pos>, rows: int, cols: int, p: Pos)
  {
    Inside(rows, cols, p) && exists k, m :: 0 <= k < |ps| && 0 <= m < |ps| && k != m && p == Reflect(ps[k], ps[m])
  }

  /**
   * Each unordered pair is taken once, but it adds both of its candidates:
   * the antinodes of all pairs `k < m` are those of every ordered pair of
   * distinct indices, so the order of a pair does not matter.
   */
  lemma PairOrderIrrelevant(ps: seq<Pos>, rows: int, cols: int, p: Pos)
    ensures p in ListNodes(ps, |ps|, rows, cols) <==> FromPair(ps, rows, cols, p)
  {
    ListNodesIff(ps, |ps|, rows, cols, p);
    if FromPair(ps, rows, cols, p) {
      EitherOrderListed(ps, rows, cols, p);
    }
    if InList(ps, |ps|, rows, cols, p) {
      ListedEitherOrder(ps, rows, cols, p);
    }
  }

  lemma EitherOrderListed(ps: seq<Pos>, rows: int, cols: int, p: Pos)
    requires FromPair(ps, rows, cols, p)
    ensures InList(ps, |ps|, rows, cols, p)
  {
    var k, m :| 0 <= k < |ps| && 0 <= m < |ps| && k != m && p == Reflect(ps[k], ps[m]);
    if k < m {
      assert p in PairNodes(ps[k], ps[m], rows, cols);
      assert InRow(ps, k, |ps|, rows, cols, p);
    } else {
      assert p in PairNodes(ps[m], ps[k], rows, cols);
      assert InRow(ps, m, |ps|, rows, cols, p);
    }
  }

  lemma ListedEitherOrder(ps: seq<Pos>, rows: int, cols: int, p: Pos)
    requires InList(ps, |ps|, rows, cols, p)
    ensures FromPair(ps, rows, cols, p)
  {
    var k :| 0 <= k < |ps| && InRow(ps, k, |ps|, rows, cols, p);
    var m :| k < m < |ps| && p in PairNodes(ps[k], ps[m], rows, cols);
    if p != Reflect(ps[k], ps[m]) {
      assert p == Reflect(ps[m], ps[k]);
    }
  }

  /** The body of the inner loop: both candidates of the pair `(a, b)`, when inside the grid. */
  method AddPair(antinodes: set<Pos>, a: Pos, b: Pos, rows: int, cols: int) returns (r: set<Pos>)
    ensures r == antinodes + PairNodes(a, b, rows, cols)
  {
    r := antinodes;
    var distance := (a.0 - b.0, a.1 - b.1);
    var x, y := a.0 + distance.0, a.1 + distance.1;
    if 0 <= x < rows && 0 <= y < cols {
      r := r + {(x, y)};
    }
    x, y := b.0 - distance.0, b.1 - distance.1;
    if 0 <= x < rows && 0 <= y < cols {
      r := r + {(x, y)};
    }
  }

  /** The nested loops over `itertools.combinations(ps, 2)`: each pair adds its in-bounds candidates. */
  method AddPairs(antinodes: set<Pos>, ps: seq<Pos>, rows: int, cols: int) returns (r: set<Pos>)
    ensures r == antinodes + ListNodes(ps, |ps|, rows, cols)
  {
    r := antinodes;
    var k := 0;
    while k < |ps|
      invariant k <= |ps|
      invariant r == antinodes + ListNodes(ps, k, rows, cols)
    {
      r := AddRow(r, ps, k, rows, cols);
      k := k + 1;
    }
  }

  /** The inner loop: the pairs `(ps[k], ps[m])` for every `m` after `k`. */
  method AddRow(antinodes: set<Pos>, ps: seq<Pos>, k: nat, rows: int, cols: int) returns (r: set<Pos>)
    requires k < |ps|
    ensures r == antinodes + RowNodes(ps, k, |ps|, rows, cols)
  {
    r := antinodes;
    var m := k + 1;
    while m < |ps|
      invariant k + 1 <= m <= |ps|
      invariant r == antinodes + RowNodes(ps, k, m, rows, cols)
    {
      r := AddPair(r, ps[k], ps[m], rows, cols);
      m := m + 1;
    }
  }

  /**
   * A cell is an antinode: it lies inside the grid, and two different
   * antennas of one frequency put it beyond one of them.
   */
  ghost predicate Antinode(grid: seq<seq<char>>, cols: int, p: Pos)
  {
    Inside(|grid|, cols, p)
    && exists a, b :: a != b && p == Reflect(a, b) && Antenna(grid, cols, a) && Holds(grid, cols, b, grid[a.0][a.1])
  }

  /** An antenna: a cell of the first `cols` columns that holds anything but `.`. */
  predicate Antenna(grid: seq<seq<char>>, cols: int, a: Pos)
  {
    Inside(|grid|, cols, a) && a.1 < |grid[a.0]| && grid[a.0][a.1] != '.'
  }

  /** Some frequency among `keys` has `p` among the antinodes of its pairs. */
  ghost predicate InSome(antennas: map<char, seq<Pos>>, keys: set<char>, rows: int, cols: int, p: Pos)
  {
    exists f :: f in keys && f in antennas && p in ListNodes(antennas[f], |antennas[f]|, rows, cols)
  }

  /** Two different positions of one strictly ordered list are different cells. */
  lemma DistinctCells(ps: seq<Pos>, k: int, m: int)
    requires 0 <= k < |ps| && 0 <= m < |ps| && k != m
    requires forall i, j :: 0 <= i < j < |ps| ==> Before(ps[i], ps[j])
    ensures ps[k] != ps[m]
  {
    if k < m {
      assert Before(ps[k], ps[m]);
    } else {
      assert Before(ps[m], ps[k]);
    }
  }

  /** The antinodes of the lists `map_grid` built are the antinodes of the grid. */
  lemma MappedAntinodes(grid: seq<seq<char>>, cols: int, antennas: map<char, seq<Pos>>, p: Pos)
    requires Mapped(grid, cols, antennas)
    ensures InSome(antennas, antennas.Keys, |grid|, cols, p) <==> Antinode(grid, cols, p)
  {
    if InSome(antennas, antennas.Keys, |grid|, cols, p) {
      ListedIsAntinode(grid, cols, antennas, p);
    }
    if Antinode(grid, cols, p) {
      AntinodeIsListed(grid, cols, antennas, p);
    }
  }

  lemma ListedIsAntinode(grid: seq<seq<char>>, cols: int, antennas: map<char, seq<Pos>>, p: Pos)
    requires Mapped(grid, cols, antennas) && InSome(antennas, antennas.Keys, |grid|, cols, p)
    ensures Antinode(grid, cols, p)
  {
    var rows := |grid|;
    var f :| f in antennas && p in ListNodes(antennas[f], |antennas[f]|, rows, cols);
    var ps := antennas[f];
    PairOrderIrrelevant(ps, rows, cols, p);
    var k, m :| 0 <= k < |ps| && 0 <= m < |ps| && k != m && p == Reflect(ps[k], ps[m]);
    DistinctCells(ps, k, m);
    assert Holds(grid, cols, ps[k], f) && Holds(grid, cols, ps[m], f);
    assert Antenna(grid, cols, ps[k]);
  }

  lemma AntinodeIsListed(grid: seq<seq<char>>, cols: int, antennas: map<char, seq<Pos>>, p: Pos)
    requires Mapped(grid, cols, antennas) && Antinode(grid, cols, p)
    ensures InSome(antennas, antennas.Keys, |grid|, cols, p)
  {
    var rows := |grid|;
    var a, b :| a != b && p == Reflect(a, b) && Antenna(grid, cols, a) && Holds(grid, cols, b, grid[a.0][a.1]);
    var f := grid[a.0][a.1];
    assert Before(a, (rows, 0)) && Before(b, (rows, 0));
    assert f in antennas && a in antennas[f] && b in antennas[f];
    var ps := antennas[f];
    var k :| 0 <= k < |ps| && ps[k] == a;
    var m :| 0 <= m < |ps| && ps[m] == b;
    assert FromPair(ps, rows, cols, p);
    PairOrderIrrelevant(ps, rows, cols, p);
  }

  /** `main` after reading the grid: `map_grid`, then the loop over every frequency's pairs. */
  method Antinodes(grid: seq<seq<char>>) returns (r: Result<set<Pos>, Exc>)
    ensures r.Err? <==> grid == [] || !Covers(grid, |grid[0]|)
    ensures r.Err? ==> r.error == IndexError
    ensures r.Ok? ==> forall p :: p in r.value <==> Antinode(grid, |grid[0]|, p)
    ensures r.Ok? ==> |r.value| <= |grid| * |grid[0]|
  {
    var rows := |grid|;
    var first := PyAt(grid, 0);
    if first.Err? {
      return Err(first.error);
    }
    var cols := |first.value|;
    var mapped := MapGrid(grid);
    if mapped.Err? {
      return Err(mapped.error);
    }
    var antennas := mapped.value;
    var antinodes: set<Pos> := {};
    var keys := antennas.Keys;
    while keys != {}
      invariant keys <= antennas.Keys
      invariant forall p :: p in antinodes <==> InSome(antennas, antennas.Keys - keys, rows, cols, p)
      decreases |keys|
    {
      var antenna :| antenna in keys;
      antinodes := AddPairs(antinodes, antennas[antenna], rows, cols);
      keys := keys - {antenna};
    }
    forall p ensures p in antinodes <==> Antinode(grid, cols, p) {
      MappedAntinodes(grid, cols, antennas, p);
    }
    assert forall p :: p in antinodes ==> Inside(rows, cols, p);
    CellsBound(antinodes, rows, cols);
    return Ok(antinodes);
  }

  /** A set of cells of a `rows` by `cols` grid has at most `rows * cols` elements. */
  lemma {:induction false} CellsBound(s: set<Pos>, rows: nat, cols: nat)
    requires forall p :: p in s ==> Inside(rows, cols, p)
    decreases rows
    ensures |s| <= rows * cols
  {
    if rows == 0 {
      assert s == {};
    } else {
      var last := set p | p in s && p.0 == rows - 1;
      var rest := s - last;
      RowBound(last, rows - 1, cols);
      CellsBound(rest, rows - 1, cols);
      assert s == rest + last;
      assert rows * cols == (rows - 1) * cols + cols;
    }
  }

  /** A set of cells of one row of width `cols` has at most `cols` elements. */
  lemma {:induction false} RowBound(s: set<Pos>, row: int, cols: nat)
    requires forall p :: p in s ==> p.0 == row && 0 <= p.1 < cols
    decreases cols
    ensures |s| <= cols
  {
    if cols > 0 {
      var rest := s - {(row, cols - 1)};
      RowBound(rest, row, cols - 1);
    } else {
      assert s == {};
    }
  }
}
