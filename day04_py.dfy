/**
 * Day 4, Python solution: a word search over a character grid. `match_word`
 * follows one direction recursively, `search` tries it from every cell in
 * the eight directions, `find_str` builds four windows per cell and compares
 * them with the word and its reverse, and `find_xmas` counts 3x3 X patterns.
 *
 * The grid is the list of lines as read, so every row normally ends in its
 * newline; a row shorter than the first makes the source raise IndexError,
 * and the operations here require rows at least as wide as they index.
 */
module Day04Py {
  import opened Wrappers
  import opened PyText

  const MATCH_STRING: string := "XMAS"

  /** `[(x, y) for x in ORDINALS for y in ORDINALS if (x, y) != (0, 0)]`, in that order. */
  const DIRS: seq<(int, int)> := [(-1, -1), (-1, 0), (-1, 1), (0, -1), (0, 1), (1, -1), (1, 0), (1, 1)]

  /** The eight directions are exactly the non-zero steps in `{-1, 0, 1}` on each axis, each once. */
  lemma DirsAreNeighbours()
    ensures |DIRS| == 8
    ensures forall i :: 0 <= i < |DIRS| ==> -1 <= DIRS[i].0 <= 1 && -1 <= DIRS[i].1 <= 1 && DIRS[i] != (0, 0)
    ensures forall x, y :: -1 <= x <= 1 && -1 <= y <= 1 && (x, y) != (0, 0) ==> (x, y) in DIRS
    ensures forall i, j :: 0 <= i < j < |DIRS| ==> DIRS[i] != DIRS[j]
  {
  }

  /** `grid[x][y]` where it exists; NUL elsewhere (never a letter of a word). */
  function CharAt(g: seq<string>, x: int, y: int): char
  {
    if 0 <= x < |g| && 0 <= y < |g[x]| then g[x][y] else '\0'
  }

  /** The first `rows` rows exist and are at least `cols` wide, so `grid[x][y]` is defined below them. */
  predicate Fits(g: seq<string>, rows: nat, cols: nat)
  {
    rows <= |g| && forall i :: 0 <= i < rows ==> cols <= |g[i]|
  }

  predicate InBounds(rows: int, cols: int, x: int, y: int)
  {
    0 <= x < rows && 0 <= y < cols
  }

  lemma FitsAt(g: seq<string>, rows: nat, cols: nat, x: int, y: int)
    requires Fits(g, rows, cols) && InBounds(rows, cols, x, y)
    ensures CharAt(g, x, y) == g[x][y]
  {
  }

  // ------------------------------------------------------------- match_word

  /** The coordinate reached from `x` after `n` steps of `d`. */
  function Pos(x: int, d: int, n: nat): int
    decreases n
  {
    if n == 0 then x else Pos(x + d, d, n - 1)
  }

  lemma {:induction false} PosLinear(x: int, d: int, n: nat)
    ensures Pos(x, d, n) == x + n * d
    decreases n
  {
    if n > 0 {
      PosLinear(x + d, d, n - 1);
    }
  }

  /** The letters `m[idx..]` lie one after another from `(x, y)` in direction `(dx, dy)`, all inside the bounds. */
  predicate Reads(g: seq<string>, rows: int, cols: int, m: string, idx: nat, x: int, y: int, dx: int, dy: int)
  {
    forall j :: 0 <= j < |m| - idx ==>
      InBounds(rows, cols, Pos(x, dx, j), Pos(y, dy, j)) && CharAt(g, Pos(x, dx, j), Pos(y, dy, j)) == m[idx + j]
  }

  /**
   * `match_word`: true exactly when the rest of the word, from `idx`, reads
   * from `(x, y)` in direction `(dx, dy)` inside the `rows` x `cols` bounds.
   */
  function MatchWord(g: seq<string>, rows: int, cols: int, m: string, idx: nat, x: int, y: int, dx: int, dy: int): (b: bool)
    requires idx <= |m|
    decreases |m| - idx
    ensures b <==> Reads(g, rows, cols, m, idx, x, y, dx, dy)
  {
    if idx == |m| then true
    else
      ReadsStep(g, rows, cols, m, idx, x, y, dx, dy);
      if InBounds(rows, cols, x, y) && m[idx] == CharAt(g, x, y) then
        MatchWord(g, rows, cols, m, idx + 1, x + dx, y + dy, dx, dy)
      else false
  }

  /** Reading from `idx` is reading one letter, then the rest one step further on. */
  lemma ReadsStep(g: seq<string>, rows: int, cols: int, m: string, idx: nat, x: int, y: int, dx: int, dy: int)
    requires idx < |m|
    ensures Reads(g, rows, cols, m, idx, x, y, dx, dy) <==>
      InBounds(rows, cols, x, y) && m[idx] == CharAt(g, x, y) && Reads(g, rows, cols, m, idx + 1, x + dx, y + dy, dx, dy)
  {
    if Reads(g, rows, cols, m, idx + 1, x + dx, y + dy, dx, dy) && InBounds(rows, cols, x, y) && m[idx] == CharAt(g, x, y) {
      forall j | 0 <= j < |m| - idx
        ensures InBounds(rows, cols, Pos(x, dx, j), Pos(y, dy, j)) && CharAt(g, Pos(x, dx, j), Pos(y, dy, j)) == m[idx + j]
      {
        if j > 0 {
          assert Pos(x + dx, dx, j - 1) == Pos(x, dx, j);
          assert m[idx + 1 + (j - 1)] == m[idx + j];
        }
      }
    }
    if Reads(g, rows, cols, m, idx, x, y, dx, dy) {
      assert Pos(x, dx, 0) == x && Pos(y, dy, 0) == y;
      var x1, y1, next := x + dx, y + dy, idx + 1;
      forall j | 0 <= j < |m| - next
        ensures InBounds(rows, cols, Pos(x1, dx, j), Pos(y1, dy, j))
          && CharAt(g, Pos(x1, dx, j), Pos(y1, dy, j)) == m[next + j]
      {
        assert Pos(x, dx, j + 1) == Pos(x1, dx, j);
        assert m[idx + (j + 1)] == m[next + j];
      }
    }
  }

  // ------------------------------------------------------ sums over the grid

  /** `f(r, 0) + ... + f(r, n - 1)`: the inner `for col` loop. */
  function SumRow(f: (int, int) -> nat, r: int, n: nat): nat
  {
    if n == 0 then 0 else SumRow(f, r, n - 1) + f(r, n - 1)
  }

  /** The sum of `f` over the first `n` rows of `cols` cells: the outer `for row` loop. */
  function SumRect(f: (int, int) -> nat, n: nat, cols: nat): nat
  {
    if n == 0 then 0 else SumRect(f, n - 1, cols) + SumRow(f, n - 1, cols)
  }

  lemma {:induction false} SumRowBound(f: (int, int) -> nat, r: int, n: nat, k: nat)
    requires forall c :: 0 <= c < n ==> f(r, c) <= k
    ensures SumRow(f, r, n) <= k * n
  {
    if n > 0 {
      SumRowBound(f, r, n - 1, k);
      MulStep(k, n, 1);
    }
  }

  lemma MulStep(k: nat, n: nat, m: nat)
    requires n > 0
    ensures k * n * m == k * (n - 1) * m + k * m
  {
    calc {
      k * n * m;
      k * ((n - 1) + 1) * m;
      k * (n - 1) * m + k * m;
    }
  }

  /** A per-cell count of at most `k` sums to at most `k * rows * cols`. */
  lemma {:induction false} SumRectBound(f: (int, int) -> nat, rows: nat, cols: nat, k: nat)
    requires forall r, c :: 0 <= r < rows && 0 <= c < cols ==> f(r, c) <= k
    ensures SumRect(f, rows, cols) <= k * rows * cols
  {
    if rows > 0 {
      SumRectBound(f, rows - 1, cols, k);
      SumRowBound(f, rows - 1, cols, k);
      MulStep(k, rows, cols);
    }
  }

  // ------------------------------------------------------------------ search

  /** How many of the first `n` directions match the word from `(r, c)`. */
  function DirHits(g: seq<string>, rows: nat, cols: nat, m: string, r: int, c: int, n: nat): (h: nat)
    requires n <= |DIRS|
    ensures h <= n
  {
    if n == 0 then 0
    else DirHits(g, rows, cols, m, r, c, n - 1) + (if MatchWord(g, rows, cols, m, 0, r, c, DIRS[n - 1].0, DIRS[n - 1].1) then 1 else 0)
  }

  /** What `search` adds for one cell: the matching directions, when the cell holds the first letter. */
  function SearchCell(g: seq<string>, rows: nat, cols: nat, m: string): (int, int) -> nat
    requires |m| > 0
  {
    (r, c) => if CharAt(g, r, c) == m[0] then DirHits(g, rows, cols, m, r, c, |DIRS|) else 0
  }

  /** The number of (row, column, direction) triples at which the word reads. */
  function SearchCount(g: seq<string>, m: string): nat
    requires |g| > 0 && |m| > 0
  {
    SumRect(SearchCell(g, |g|, |g[0]|, m), |g|, |g[0]|)
  }

  /** `search` finds at most one match per cell and direction. */
  lemma SearchBound(g: seq<string>, m: string)
    requires |g| > 0 && |m| > 0
    ensures SearchCount(g, m) <= 8 * |g| * |g[0]|
  {
    SumRectBound(SearchCell(g, |g|, |g[0]|, m), |g|, |g[0]|, 8);
  }

  /**
   * `search`: three nested loops adding one per direction in which
   * `match_word` succeeds. `len(grid[0])` raises IndexError on an empty grid,
   * and `match[0]`, read at the first cell, raises it for an empty word.
   */
  method Search(grid: seq<string>, word: string) returns (r: Result<nat, Exc>)
    requires |grid| > 0 ==> Fits(grid, |grid|, |grid[0]|)
    ensures |grid| == 0 ==> r == Err(IndexError)
    ensures |grid| > 0 && |word| == 0 ==> r == if |grid[0]| > 0 then Err(IndexError) else Ok(0)
    ensures |grid| > 0 && |word| > 0 ==> r == Ok(SearchCount(grid, word))
    ensures r.Ok? ==> r.value <= 8 * |grid| * |grid[0]|
  {
    if |grid| == 0 {
      return Err(IndexError);
    }
    var rows := |grid|;
    var cols := |grid[0]|;
    if |word| == 0 {
      // the first cell, if there is one, reads `match[0]`
      return if cols > 0 then Err(IndexError) else Ok(0);
    }
    var count := 0;
    ghost var f := SearchCell(grid, rows, cols, word);
    for row := 0 to rows
      invariant count == SumRect(f, row, cols)
    {
      for col := 0 to cols
        invariant count == SumRect(f, row, cols) + SumRow(f, row, col)
      {
        FitsAt(grid, rows, cols, row, col);
        if grid[row][col] == word[0] {
          for i := 0 to |DIRS|
            invariant count == SumRect(f, row, cols) + SumRow(f, row, col) + DirHits(grid, rows, cols, word, row, col, i)
          {
            var (dx, dy) := DIRS[i];
            if MatchWord(grid, rows, cols, word, 0, row, col, dx, dy) {
              count := count + 1;
            }
          }
        }
      }
    }
    SearchBound(grid, word);
    r := Ok(count);
  }

  // ---------------------------------------------------------------- find_str

  /**
   * The window `find_str` builds from `(r, c)` in direction `(dr, dc)`: the
   * first `n` steps, keeping only the characters that are inside the bounds.
   */
  function Collected(g: seq<string>, rows: int, cols: int, r: int, c: int, dr: int, dc: int, n: nat): (s: string)
    ensures |s| <= n
  {
    if n == 0 then []
    else
      var x, y := Pos(r, dr, n - 1), Pos(c, dc, n - 1);
      Collected(g, rows, cols, r, c, dr, dc, n - 1) + (if InBounds(rows, cols, x, y) then [CharAt(g, x, y)] else [])
  }

  /** The first `n` steps from `(r, c)` in direction `(dr, dc)` all stay inside the bounds. */
  predicate AllInBounds(rows: int, cols: int, r: int, c: int, dr: int, dc: int, n: nat)
  {
    forall k :: 0 <= k < n ==> InBounds(rows, cols, Pos(r, dr, k), Pos(c, dc, k))
  }

  /** A window has full length exactly when every step stays inside the bounds, and then it holds those cells. */
  lemma {:induction false} CollectedFull(g: seq<string>, rows: int, cols: int, r: int, c: int, dr: int, dc: int, n: nat)
    ensures |Collected(g, rows, cols, r, c, dr, dc, n)| == n <==> AllInBounds(rows, cols, r, c, dr, dc, n)
    ensures |Collected(g, rows, cols, r, c, dr, dc, n)| == n ==>
      forall k :: 0 <= k < n ==> Collected(g, rows, cols, r, c, dr, dc, n)[k] == CharAt(g, Pos(r, dr, k), Pos(c, dc, k))
  {
    if n > 0 {
      CollectedFull(g, rows, cols, r, c, dr, dc, n - 1);
      var prev := Collected(g, rows, cols, r, c, dr, dc, n - 1);
      var x, y := Pos(r, dr, n - 1), Pos(c, dc, n - 1);
      var w := Collected(g, rows, cols, r, c, dr, dc, n);
      assert w == prev + (if InBounds(rows, cols, x, y) then [CharAt(g, x, y)] else []);
      if AllInBounds(rows, cols, r, c, dr, dc, n) {
        assert InBounds(rows, cols, x, y);
        assert AllInBounds(rows, cols, r, c, dr, dc, n - 1);
      }
      if |w| == n {
        assert |prev| == n - 1 && InBounds(rows, cols, x, y);
        assert AllInBounds(rows, cols, r, c, dr, dc, n);
      }
    }
  }

  /**
   * A window equals a word exactly when the word reads from `(r, c)` in that
   * direction: a window cut short by the border never matches.
   */
  lemma WindowIsMatchWord(g: seq<string>, rows: int, cols: int, m: string, r: int, c: int, dr: int, dc: int)
    ensures Collected(g, rows, cols, r, c, dr, dc, |m|) == m <==> MatchWord(g, rows, cols, m, 0, r, c, dr, dc)
  {
    var w := Collected(g, rows, cols, r, c, dr, dc, |m|);
    CollectedFull(g, rows, cols, r, c, dr, dc, |m|);
    if w == m {
      forall j | 0 <= j < |m|
        ensures InBounds(rows, cols, Pos(r, dr, j), Pos(c, dc, j)) && CharAt(g, Pos(r, dr, j), Pos(c, dc, j)) == m[0 + j]
      {
        assert w[j] == m[j];
      }
    }
    if MatchWord(g, rows, cols, m, 0, r, c, dr, dc) {
      assert forall j :: 0 <= j < |m| ==> InBounds(rows, cols, Pos(r, dr, j), Pos(c, dc, j)) && CharAt(g, Pos(r, dr, j), Pos(c, dc, j)) == m[0 + j];
      assert |w| == |m|;
      forall j | 0 <= j < |m|
        ensures w[j] == m[j]
      {
        assert CharAt(g, Pos(r, dr, j), Pos(c, dc, j)) == m[0 + j];
      }
    }
  }

  function Reverse(s: string): (r: string)
    ensures |r| == |s| && forall i :: 0 <= i < |s| ==> r[i] == s[|s| - 1 - i]
  {
    if s == [] then [] else Reverse(s[1..]) + [s[0]]
  }

  /** `window in bidi_match`: one when the window is the word forwards or backwards. */
  function Hit(w: string, m: string): nat
  {
    if w == m || w == Reverse(m) then 1 else 0
  }

  /** What `find_str` adds for one cell: its right, down, diagonal and anti-diagonal windows. */
  function FindCell(g: seq<string>, rows: nat, cols: nat, m: string): (int, int) -> nat
  {
    (r, c) => CellHits(g, rows, cols, m, r, c)
  }

  function CellHits(g: seq<string>, rows: nat, cols: nat, m: string, r: int, c: int): nat
  {
    Hit(Collected(g, rows, cols, r, c, 0, 1, |m|), m)
    + Hit(Collected(g, rows, cols, r, c, 1, 0, |m|), m)
    + Hit(Collected(g, rows, cols, r, c, 1, 1, |m|), m)
    + Hit(Collected(g, rows, cols, r, c + |m| - 1, 1, -1, |m|), m)
  }

  /** `cols = len(grid[0]) - 1`: the newline column is left out; `range(-1)` is empty. */
  function FindCols(g: seq<string>): nat
    requires |g| > 0
  {
    if |g[0]| == 0 then 0 else |g[0]| - 1
  }

  function FindCount(g: seq<string>, m: string): nat
    requires |g| > 0
  {
    SumRect(FindCell(g, |g|, FindCols(g), m), |g|, FindCols(g))
  }

  /** Each of the four windows of a cell counts at most once. */
  lemma FindBound(g: seq<string>, m: string)
    requires |g| > 0
    ensures FindCount(g, m) <= 4 * |g| * FindCols(g)
  {
    SumRectBound(FindCell(g, |g|, FindCols(g), m), |g|, FindCols(g), 4);
  }

  /**
   * A window of `find_str` is counted exactly when `match_word` reads the word
   * or its reverse from the window's start in the window's direction.
   */
  lemma FindHitIsMatchWord(g: seq<string>, rows: nat, cols: nat, m: string, r: int, c: int, dr: int, dc: int)
    ensures Hit(Collected(g, rows, cols, r, c, dr, dc, |m|), m) == 1 <==>
      MatchWord(g, rows, cols, m, 0, r, c, dr, dc) || MatchWord(g, rows, cols, Reverse(m), 0, r, c, dr, dc)
  {
    WindowIsMatchWord(g, rows, cols, m, r, c, dr, dc);
    WindowIsMatchWord(g, rows, cols, Reverse(m), r, c, dr, dc);
  }

  /** The inner `for i` loop of `find_str`: the four windows of one cell. */
  method Windows(grid: seq<string>, rows: nat, cols: nat, word: string, row: nat, col: nat)
    returns (right: string, down: string, leftDiag: string, rightDiag: string)
    requires Fits(grid, rows, cols) && row < rows && col < cols
    ensures right == Collected(grid, rows, cols, row, col, 0, 1, |word|)
    ensures down == Collected(grid, rows, cols, row, col, 1, 0, |word|)
    ensures leftDiag == Collected(grid, rows, cols, row, col, 1, 1, |word|)
    ensures rightDiag == Collected(grid, rows, cols, row, col + |word| - 1, 1, -1, |word|)
  {
    var matchLen := |word|;
    right, down, leftDiag, rightDiag := "", "", "", "";
    var i := 0;
    while i < matchLen
      invariant i <= matchLen
      invariant right == Collected(grid, rows, cols, row, col, 0, 1, i)
      invariant down == Collected(grid, rows, cols, row, col, 1, 0, i)
      invariant leftDiag == Collected(grid, rows, cols, row, col, 1, 1, i)
      invariant rightDiag == Collected(grid, rows, cols, row, col + matchLen - 1, 1, -1, i)
    {
      CollectedStep(grid, rows, cols, row, col, 0, 1, i);
      CollectedStep(grid, rows, cols, row, col, 1, 0, i);
      CollectedStep(grid, rows, cols, row, col, 1, 1, i);
      CollectedStep(grid, rows, cols, row, col + matchLen - 1, 1, -1, i);
      if col + i < cols {
        right := right + [grid[row][col + i]];
      }
      if row + i < rows {
        down := down + [grid[row + i][col]];
      }
      if row + i < rows && col + i < cols {
        leftDiag := leftDiag + [grid[row + i][col + i]];
      }
      if row + i < rows && (col + matchLen) - (i + 1) < cols {
        rightDiag := rightDiag + [grid[row + i][(col + matchLen) - (i + 1)]];
      }
      i := i + 1;
    }
  }

  /** Step `i` of a window: the cell `i` steps on, when it is inside the bounds. */
  lemma CollectedStep(g: seq<string>, rows: nat, cols: nat, r: int, c: int, dr: int, dc: int, i: nat)
    requires Fits(g, rows, cols)
    ensures var x, y := r + i * dr, c + i * dc;
      Collected(g, rows, cols, r, c, dr, dc, i + 1)
      == Collected(g, rows, cols, r, c, dr, dc, i) + (if InBounds(rows, cols, x, y) then [g[x][y]] else [])
  {
    PosLinear(r, dr, i);
    PosLinear(c, dc, i);
  }

  /** One cell of `find_str`: build its windows and add one for each found in `bidi_match`. */
  method FindAt(grid: seq<string>, rows: nat, cols: nat, word: string, row: nat, col: nat) returns (n: nat)
    requires Fits(grid, rows, cols) && row < rows && col < cols
    ensures n == FindCell(grid, rows, cols, word)(row, col)
  {
    var bidiMatch := [word, Reverse(word)];
    var right, down, leftDiag, rightDiag := Windows(grid, rows, cols, word, row, col);
    n := 0;
    if right in bidiMatch { n := n + 1; }
    assert n == Hit(right, word);
    if down in bidiMatch { n := n + 1; }
    assert n == Hit(right, word) + Hit(down, word);
    if leftDiag in bidiMatch { n := n + 1; }
    assert n == Hit(right, word) + Hit(down, word) + Hit(leftDiag, word);
    if rightDiag in bidiMatch { n := n + 1; }
    assert n == CellHits(grid, rows, cols, word, row, col);
  }

  /**
   * `find_str`: for every cell left of the newline column, one per window
   * that reads the word either way; `len(grid[0])` raises IndexError on an
   * empty grid.
   */
  method FindStr(grid: seq<string>, word: string) returns (r: Result<nat, Exc>)
    requires |grid| > 0 ==> Fits(grid, |grid|, FindCols(grid))
    ensures |grid| == 0 ==> r == Err(IndexError)
    ensures |grid| > 0 ==> r == Ok(FindCount(grid, word)) && FindCount(grid, word) <= 4 * |grid| * FindCols(grid)
  {
    if |grid| == 0 {
      return Err(IndexError);
    }
    var count := 0;
    var rows := |grid|;
    var cols := FindCols(grid);
    ghost var f := FindCell(grid, rows, cols, word);
    for row := 0 to rows
      invariant count == SumRect(f, row, cols)
    {
      for col := 0 to cols
        invariant count == SumRect(f, row, cols) + SumRow(f, row, col)
      {
        var n := FindAt(grid, rows, cols, word, row, col);
        count := count + n;
      }
    }
    FindBound(grid, word);
    r := Ok(count);
  }

  // --------------------------------------------------------------- find_xmas

  predicate IsMas(s: string)
  {
    s == "MAS" || s == "SAM"
  }

  /** One for a cell whose 3x3 window has "MAS" or "SAM" on both diagonals. */
  predicate IsX(g: seq<string>, r: int, c: int)
  {
    IsMas([CharAt(g, r, c), CharAt(g, r + 1, c + 1), CharAt(g, r + 2, c + 2)])
    && IsMas([CharAt(g, r, c + 2), CharAt(g, r + 1, c + 1), CharAt(g, r + 2, c)])
  }

  function XCell(g: seq<string>): (int, int) -> nat
  {
    (r, c) => if IsX(g, r, c) then 1 else 0
  }

  function XCount(g: seq<string>): nat
    requires |g| > 0
  {
    var rows := if |g| < 2 then 0 else |g| - 2;
    var cols := if |g[0]| < 2 then 0 else |g[0]| - 2;
    SumRect(XCell(g), rows, cols)
  }

  /** A three-letter word reads along three in-bounds cells exactly when those cells spell it. */
  lemma MatchWord3(g: seq<string>, rows: nat, cols: nat, w: string, x: int, y: int, dx: int, dy: int)
    requires |w| == 3
    requires InBounds(rows, cols, x, y) && InBounds(rows, cols, x + dx, y + dy) && InBounds(rows, cols, x + 2 * dx, y + 2 * dy)
    ensures MatchWord(g, rows, cols, w, 0, x, y, dx, dy) <==>
      [CharAt(g, x, y), CharAt(g, x + dx, y + dy), CharAt(g, x + 2 * dx, y + 2 * dy)] == w
  {
    var s := [CharAt(g, x, y), CharAt(g, x + dx, y + dy), CharAt(g, x + 2 * dx, y + 2 * dy)];
    assert Pos(x, dx, 0) == x && Pos(y, dy, 0) == y;
    assert Pos(x, dx, 1) == x + dx && Pos(y, dy, 1) == y + dy;
    PosLinear(x, dx, 2);
    PosLinear(y, dy, 2);
    if s == w {
      forall j | 0 <= j < 3
        ensures InBounds(rows, cols, Pos(x, dx, j), Pos(y, dy, j)) && CharAt(g, Pos(x, dx, j), Pos(y, dy, j)) == w[0 + j]
      {
        assert s[j] == w[j];
      }
    }
    if MatchWord(g, rows, cols, w, 0, x, y, dx, dy) {
      assert CharAt(g, Pos(x, dx, 0), Pos(y, dy, 0)) == w[0 + 0];
      assert CharAt(g, Pos(x, dx, 1), Pos(y, dy, 1)) == w[0 + 1];
      assert CharAt(g, Pos(x, dx, 2), Pos(y, dy, 2)) == w[0 + 2];
    }
  }

  /**
   * An X is counted exactly when "MAS" reads along each diagonal of the
   * window, one way or the other, in the sense of `match_word`.
   */
  lemma XIsMatchWord(g: seq<string>, rows: nat, cols: nat, r: int, c: int)
    requires 0 <= r && r + 2 < rows && 0 <= c && c + 2 < cols
    ensures IsX(g, r, c) <==>
      (MatchWord(g, rows, cols, "MAS", 0, r, c, 1, 1) || MatchWord(g, rows, cols, "MAS", 0, r + 2, c + 2, -1, -1))
      && (MatchWord(g, rows, cols, "MAS", 0, r, c + 2, 1, -1) || MatchWord(g, rows, cols, "MAS", 0, r + 2, c, -1, 1))
  {
    DiagonalIsMas(g, rows, cols, r, c, 1, 1);
    DiagonalIsMas(g, rows, cols, r, c + 2, 1, -1);
  }

  /** A diagonal of three cells spells "MAS" or "SAM" exactly when "MAS" reads along it from one end or the other. */
  lemma DiagonalIsMas(g: seq<string>, rows: nat, cols: nat, x: int, y: int, dx: int, dy: int)
    requires InBounds(rows, cols, x, y) && InBounds(rows, cols, x + dx, y + dy) && InBounds(rows, cols, x + 2 * dx, y + 2 * dy)
    ensures IsMas([CharAt(g, x, y), CharAt(g, x + dx, y + dy), CharAt(g, x + 2 * dx, y + 2 * dy)]) <==>
      MatchWord(g, rows, cols, "MAS", 0, x, y, dx, dy) || MatchWord(g, rows, cols, "MAS", 0, x + 2 * dx, y + 2 * dy, -dx, -dy)
  {
    var x2, y2 := x + 2 * dx, y + 2 * dy;
    assert x2 + -dx == x + dx && y2 + -dy == y + dy;
    assert x2 + 2 * -dx == x && y2 + 2 * -dy == y;
    MatchWord3(g, rows, cols, "MAS", x, y, dx, dy);
    MatchWord3(g, rows, cols, "MAS", x2, y2, -dx, -dy);
  }

  lemma MulMono(a: nat, b: nat, c: nat, d: nat)
    requires a <= c && b <= d
    ensures 1 * a * b <= c * d
  {
    assert a * b <= c * b;
    assert c * b <= c * d;
  }

  /** The body of the `find_xmas` loops for one window. */
  method XAt(grid: seq<string>, rows: nat, cols: nat, row: nat, col: nat) returns (hit: bool)
    requires Fits(grid, rows, cols) && row + 2 < rows && col + 2 < cols
    ensures hit <==> IsX(grid, row, col)
  {
    FitsAt(grid, rows, cols, row, col);
    FitsAt(grid, rows, cols, row + 1, col + 1);
    FitsAt(grid, rows, cols, row + 2, col + 2);
    FitsAt(grid, rows, cols, row, col + 2);
    FitsAt(grid, rows, cols, row + 2, col);
    var leftDiagonal := [grid[row][col], grid[row + 1][col + 1], grid[row + 2][col + 2]];
    var rightDiagonal := [grid[row][col + 2], grid[row + 1][col + 1], grid[row + 2][col]];
    hit := (leftDiagonal == "MAS" || leftDiagonal == "SAM") && (rightDiagonal == "MAS" || rightDiagonal == "SAM");
  }

  /**
   * `find_xmas`: one per 3x3 window whose two diagonals both read "MAS" or
   * "SAM"; `len(grid[0])` raises IndexError on an empty grid.
   */
  method FindXmas(grid: seq<string>) returns (r: Result<nat, Exc>)
    requires |grid| > 0 ==> Fits(grid, |grid|, |grid[0]|)
    ensures |grid| == 0 ==> r == Err(IndexError)
    ensures |grid| > 0 ==> r == Ok(XCount(grid)) && XCount(grid) <= |grid| * |grid[0]|
  {
    if |grid| == 0 {
      return Err(IndexError);
    }
    var count := 0;
    var rows := |grid|;
    var cols := |grid[0]|;
    var xRows := if rows < 2 then 0 else rows - 2;
    var xCols := if cols < 2 then 0 else cols - 2;
    ghost var f := XCell(grid);
    for row := 0 to xRows
      invariant count == SumRect(f, row, xCols)
    {
      for col := 0 to xCols
        invariant count == SumRect(f, row, xCols) + SumRow(f, row, col)
      {
        var hit := XAt(grid, rows, cols, row, col);
        if hit {
          count := count + 1;
        }
      }
    }
    SumRectBound(f, xRows, xCols, 1);
    MulMono(xRows, xCols, rows, cols);
    r := Ok(count);
  }
}
