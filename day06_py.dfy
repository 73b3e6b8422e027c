/**
 * Day 6, Python solution: a guard walks a floor plan, turning clockwise in
 * front of each `#`, until it steps off the grid; the walk records every
 * cell it leaves.
 */
module Day06Py {
  import opened Wrappers
  import opened PyText

  /** A (row, column) pair: a cell, or a unit direction. */
  type Pos = (int, int)

  /** Up, right, down, left: the order of `DIRECTIONS` and `AVATARS`. */
  const DIRECTIONS: seq<Pos> := [(-1, 0), (0, 1), (1, 0), (0, -1)]
  const AVATARS: seq<char> := ['^', '>', 'v', '<']

  // -------------------------------------------------------------- the tables

  /** `avatar_to_direction`: ValueError for a character that is not an avatar. */
  function AvatarToDirection(avatar: char): (r: Result<Pos, Exc>)
    ensures r.Ok? <==> avatar in AVATARS
    ensures r.Err? ==> r.error == ValueError
    ensures r.Ok? ==> r.value in DIRECTIONS && Index(DIRECTIONS, r.value) == Index(AVATARS, avatar)
  {
    match ListIndex(AVATARS, avatar)
    case Err(e) => Err(e)
    case Ok(i) => Ok(DIRECTIONS[i])
  }

  /** `direction_to_avatar`: the inverse table lookup. */
  function DirectionToAvatar(direction: Pos): (r: Result<char, Exc>)
    ensures r.Ok? <==> direction in DIRECTIONS
    ensures r.Err? ==> r.error == ValueError
    ensures r.Ok? ==> AvatarToDirection(r.value) == Ok(direction)
  {
    match ListIndex(DIRECTIONS, direction)
    case Err(e) => Err(e)
    case Ok(i) => Ok(AVATARS[i])
  }

  /** Reading an avatar's direction back gives the avatar. */
  lemma AvatarRoundTrip(avatar: char)
    requires avatar in AVATARS
    ensures DirectionToAvatar(AvatarToDirection(avatar).value) == Ok(avatar)
  {
  }

  /**
   * `choose_direction`: a quarter turn clockwise, `(dr, dc)` becoming
   * `(dc, -dr)`, for one of the four headings; ValueError for anything else.
   */
  function ChooseDirection(current: Pos): (r: Result<Pos, Exc>)
    ensures r.Ok? <==> current in DIRECTIONS
    ensures r.Err? ==> r.error == ValueError
    ensures r.Ok? ==> r.value in DIRECTIONS
  {
    if current in DIRECTIONS then Ok((current.1, -current.0)) else Err(ValueError)
  }

  /** The turn is `DIRECTIONS[(DIRECTIONS.index(current) + 1) % len(DIRECTIONS)]`: the next heading, cyclically. */
  lemma ChooseDirectionByIndex(current: Pos)
    ensures ChooseDirection(current)
         == match ListIndex(DIRECTIONS, current)
            case Err(e) => Err(e)
            case Ok(i) => Ok(DIRECTIONS[(i + 1) % |DIRECTIONS|])
  {
  }

  /** Four turns bring the guard back to its heading. */
  lemma {:induction false} FourTurns(d: Pos)
    requires d in DIRECTIONS
    ensures var d1 := ChooseDirection(d).value;
      var d2 := ChooseDirection(d1).value;
      var d3 := ChooseDirection(d2).value;
      ChooseDirection(d3).value == d && d1 != d && d2 != d && d3 != d
  {
    var d1 := ChooseDirection(d).value;
    var d2 := ChooseDirection(d1).value;
    var d3 := ChooseDirection(d2).value;
    assert d1 == (d.1, -d.0) && d2 == (-d.0, -d.1) && d3 == (-d.1, d.0);
  }

  // ------------------------------------------------------------ find_avatar

  predicate HasAvatar(line: seq<char>)
  {
    exists k :: 0 <= k < |AVATARS| && AVATARS[k] in line
  }

  /**
   * The guard's cell: the first row holding any avatar, and in it the first
   * `^`, else the first `>`, else `v`, else `<`; `(-1, -1)` when there is none.
   */
  function AvatarFrom(grid: seq<seq<char>>, i: nat): (r: Pos)
    requires i <= |grid|
    decreases |grid| - i
    ensures r == (-1, -1) <==> forall row :: i <= row < |grid| ==> !HasAvatar(grid[row])
    ensures r != (-1, -1) ==>
      i <= r.0 < |grid| && 0 <= r.1 < |grid[r.0]| && grid[r.0][r.1] in AVATARS
      && (forall row :: i <= row < r.0 ==> !HasAvatar(grid[row]))
      && (forall k :: 0 <= k < Index(AVATARS, grid[r.0][r.1]) ==> AVATARS[k] !in grid[r.0])
      && grid[r.0][r.1] !in grid[r.0][..r.1]
  {
    if i == |grid| then (-1, -1)
    else if HasAvatar(grid[i]) then (i, AvatarIn(grid[i], 0))
    else
      var r := AvatarFrom(grid, i + 1);
      assert forall row :: i <= row < |grid| && !HasAvatar(grid[row]) <==> row == i || (i + 1 <= row < |grid| && !HasAvatar(grid[row]));
      r
  }

  /** Position of the first avatar, in priority order from `AVATARS[k]`, found in `line`. */
  function AvatarIn(line: seq<char>, k: nat): (j: nat)
    requires k < |AVATARS| && exists k' :: k <= k' < |AVATARS| && AVATARS[k'] in line
    decreases |AVATARS| - k
    ensures j < |line| && line[j] in AVATARS && line[j] !in line[..j]
    ensures k <= Index(AVATARS, line[j])
    ensures forall k' :: k <= k' < Index(AVATARS, line[j]) ==> AVATARS[k'] !in line
  {
    if AVATARS[k] in line then Index(line, AVATARS[k]) else AvatarIn(line, k + 1)
  }

  /** `find_avatar`: scan the rows, trying each avatar with `list.index`. */
  method FindAvatar(grid: seq<seq<char>>) returns (r: Pos)
    ensures r == AvatarFrom(grid, 0)
  {
    var i := 0;
    while i < |grid|
      invariant i <= |grid|
      invariant AvatarFrom(grid, 0) == AvatarFrom(grid, i)
    {
      var j := FindInRow(grid[i]);
      if j.Some? {
        return (i, j.value);
      }
      i := i + 1;
    }
    return (-1, -1);
  }

  /** The inner loop of `find_avatar`: the first avatar in priority order that `line.index` finds. */
  method FindInRow(line: seq<char>) returns (j: Option<nat>)
    ensures j.Some? <==> HasAvatar(line)
    ensures j.Some? ==> j.value == AvatarIn(line, 0)
  {
    var k := 0;
    while k < |AVATARS|
      invariant k <= |AVATARS|
      invariant forall k' :: 0 <= k' < k ==> AVATARS[k'] !in line
    {
      var found := ListIndex(line, AVATARS[k]);
      if found.Ok? {
        AvatarInFrom(line, k);
        return Some(found.value);
      }
      k := k + 1;
    }
    return None;
  }

  /** Skipping avatars absent from the line does not change the one found. */
  lemma AvatarInFrom(line: seq<char>, k: nat)
    requires k < |AVATARS| && AVATARS[k] in line
    requires forall k' :: 0 <= k' < k ==> AVATARS[k'] !in line
    ensures HasAvatar(line) && AvatarIn(line, 0) == Index(line, AVATARS[k])
  {
    var i := 0;
    while i < k
      invariant i <= k && AvatarIn(line, 0) == AvatarIn(line, i)
    {
      i := i + 1;
    }
  }

  // -------------------------------------------------------------- move_guard

  datatype Guard = Guard(row: int, col: int, dir: Pos)

  predicate Inside(rows: int, cols: int, row: int, col: int)
  {
    0 <= row < rows && 0 <= col < cols
  }

  /**
   * Whether the cell ahead holds an obstacle. As written (`wraps`), only
   * the upper bounds are tested, so an index of -1 reads the last row or
   * column; the corrected test also asks for both indices to be non-negative.
   */
  function Blocked(grid: seq<seq<char>>, rows: int, cols: int, row: int, col: int, wraps: bool): Result<bool, Exc>
  {
    if row < rows && col < cols && (wraps || (0 <= row && 0 <= col)) then
      match PyAt(grid, row)
      case Err(e) => Err(e)
      case Ok(line) =>
        match PyAt(line, col)
        case Err(e) => Err(e)
        case Ok(c) => Ok(c == '#')
    else Ok(false)
  }

  /** Put the cells `ps` in front of the cells of a finished walk. */
  function Prepend(ps: seq<Pos>, w: Option<Result<seq<Pos>, Exc>>): Option<Result<seq<Pos>, Exc>>
  {
    match w
    case Some(Ok(rest)) => Some(Ok(ps + rest))
    case _ => w
  }

  lemma PrependNothing(w: Option<Result<seq<Pos>, Exc>>)
    ensures Prepend([], w) == w
  {
    if w.Some? && w.value.Ok? {
      assert [] + w.value.value == w.value.value;
    }
  }

  lemma PrependTwice(ps: seq<Pos>, qs: seq<Pos>, w: Option<Result<seq<Pos>, Exc>>)
    ensures Prepend(ps, Prepend(qs, w)) == Prepend(ps + qs, w)
  {
    if w.Some? && w.value.Ok? {
      assert ps + (qs + w.value.value) == (ps + qs) + w.value.value;
    }
  }

  /**
   * The `while True` loop of `move_guard` run for at most `fuel` passes:
   * `None` when the fuel runs out, otherwise the recorded cells or the
   * exception raised.
   */
  function Walk(grid: seq<seq<char>>, rows: int, cols: int, g: Guard, fuel: nat, wraps: bool)
    : Option<Result<seq<Pos>, Exc>>
    decreases fuel
  {
    if !Inside(rows, cols, g.row, g.col) then Some(Ok([]))
    else if fuel == 0 then None
    else
      var next := Guard(g.row + g.dir.0, g.col + g.dir.1, g.dir);
      match Blocked(grid, rows, cols, next.row, next.col, wraps)
      case Err(e) => Some(Err(e))
      case Ok(true) =>
        (match ChooseDirection(g.dir)
         case Err(e) => Some(Err(e))
         case Ok(d) => Walk(grid, rows, cols, g.(dir := d), fuel - 1, wraps))
      case Ok(false) => Prepend([(g.row, g.col)], Walk(grid, rows, cols, next, fuel - 1, wraps))
  }

  /** A walk from a valid heading records in-bounds cells, one unit step apart, starting where it stands. */
  predicate Path(rows: int, cols: int, start: Pos, ps: seq<Pos>)
  {
    (ps != [] ==> ps[0] == start)
    && (forall i :: 0 <= i < |ps| ==> Inside(rows, cols, ps[i].0, ps[i].1))
    && (forall i :: 0 <= i < |ps| - 1 ==> Adjacent(ps[i], ps[i + 1]))
  }

  /** `b` is one unit step from `a`. */
  predicate Adjacent(a: Pos, b: Pos)
  {
    (b.0 - a.0, b.1 - a.1) in DIRECTIONS
  }

  lemma PathCons(rows: int, cols: int, p: Pos, d: Pos, ps: seq<Pos>)
    requires Inside(rows, cols, p.0, p.1) && d in DIRECTIONS
    requires Path(rows, cols, (p.0 + d.0, p.1 + d.1), ps)
    ensures Path(rows, cols, p, [p] + ps)
  {
    var r := [p] + ps;
    assert ps != [] ==> Adjacent(p, ps[0]);
    forall i | 0 <= i < |r| - 1 ensures Adjacent(r[i], r[i + 1]) {
      if i > 0 {
        assert r[i] == ps[i - 1] && r[i + 1] == ps[i];
      }
    }
  }

  /** A guard inside the grid whose walk ends without an exception had fuel and tested the cell ahead. */
  lemma WalkGoesOn(grid: seq<seq<char>>, rows: int, cols: int, g: Guard, fuel: nat, wraps: bool)
    requires Inside(rows, cols, g.row, g.col)
    requires Walk(grid, rows, cols, g, fuel, wraps).Some? && Walk(grid, rows, cols, g, fuel, wraps).value.Ok?
    ensures fuel > 0 && Blocked(grid, rows, cols, g.row + g.dir.0, g.col + g.dir.1, wraps).Ok?
  {
  }

  /** In front of an obstacle the guard turns and records nothing. */
  lemma WalkTurns(grid: seq<seq<char>>, rows: int, cols: int, g: Guard, fuel: nat, wraps: bool)
    requires Inside(rows, cols, g.row, g.col) && fuel > 0
    requires Blocked(grid, rows, cols, g.row + g.dir.0, g.col + g.dir.1, wraps) == Ok(true)
    requires Walk(grid, rows, cols, g, fuel, wraps).Some? && Walk(grid, rows, cols, g, fuel, wraps).value.Ok?
    ensures ChooseDirection(g.dir).Ok?
    ensures Walk(grid, rows, cols, g, fuel, wraps) == Walk(grid, rows, cols, g.(dir := ChooseDirection(g.dir).value), fuel - 1, wraps)
  {
  }

  /** With the cell ahead free the guard records its cell and steps. */
  lemma WalkSteps(grid: seq<seq<char>>, rows: int, cols: int, g: Guard, fuel: nat, wraps: bool)
    requires Inside(rows, cols, g.row, g.col) && fuel > 0
    requires Blocked(grid, rows, cols, g.row + g.dir.0, g.col + g.dir.1, wraps) == Ok(false)
    requires Walk(grid, rows, cols, g, fuel, wraps).Some? && Walk(grid, rows, cols, g, fuel, wraps).value.Ok?
    ensures var w := Walk(grid, rows, cols, Guard(g.row + g.dir.0, g.col + g.dir.1, g.dir), fuel - 1, wraps);
      w.Some? && w.value.Ok? && Walk(grid, rows, cols, g, fuel, wraps).value.value == [(g.row, g.col)] + w.value.value
  {
  }

  /**
   * Every recorded cell is inside the grid, consecutive cells are one unit
   * step apart, and the first is the guard's own cell.
   */
  lemma {:induction false} WalkIsPath(grid: seq<seq<char>>, rows: int, cols: int, g: Guard, fuel: nat, wraps: bool)
    requires g.dir in DIRECTIONS
    requires Walk(grid, rows, cols, g, fuel, wraps).Some? && Walk(grid, rows, cols, g, fuel, wraps).value.Ok?
    decreases fuel
    ensures Path(rows, cols, (g.row, g.col), Walk(grid, rows, cols, g, fuel, wraps).value.value)
  {
    if Inside(rows, cols, g.row, g.col) {
      WalkGoesOn(grid, rows, cols, g, fuel, wraps);
      var next := Guard(g.row + g.dir.0, g.col + g.dir.1, g.dir);
      if Blocked(grid, rows, cols, next.row, next.col, wraps).value {
        WalkTurns(grid, rows, cols, g, fuel, wraps);
        WalkIsPath(grid, rows, cols, g.(dir := ChooseDirection(g.dir).value), fuel - 1, wraps);
      } else {
        WalkSteps(grid, rows, cols, g, fuel, wraps);
        WalkIsPath(grid, rows, cols, next, fuel - 1, wraps);
        PathCons(rows, cols, (g.row, g.col), g.dir, Walk(grid, rows, cols, next, fuel - 1, wraps).value.value);
      }
    }
  }

  /** A guard inside the grid records at least its own cell; one outside records nothing. */
  lemma WalkNonEmpty(grid: seq<seq<char>>, rows: int, cols: int, g: Guard, fuel: nat, wraps: bool)
    requires Walk(grid, rows, cols, g, fuel, wraps).Some? && Walk(grid, rows, cols, g, fuel, wraps).value.Ok?
    ensures Inside(rows, cols, g.row, g.col) <==> Walk(grid, rows, cols, g, fuel, wraps).value.value != []
  {
    if Inside(rows, cols, g.row, g.col) {
      assert Walk(grid, rows, cols, g, fuel, wraps).value.value != [] by {
        WalkNonEmptyInside(grid, rows, cols, g, fuel, wraps);
      }
    }
  }

  lemma {:induction false} WalkNonEmptyInside(grid: seq<seq<char>>, rows: int, cols: int, g: Guard, fuel: nat, wraps: bool)
    requires Inside(rows, cols, g.row, g.col)
    requires Walk(grid, rows, cols, g, fuel, wraps).Some? && Walk(grid, rows, cols, g, fuel, wraps).value.Ok?
    decreases fuel
    ensures Walk(grid, rows, cols, g, fuel, wraps).value.value != []
  {
    WalkGoesOn(grid, rows, cols, g, fuel, wraps);
    var next := Guard(g.row + g.dir.0, g.col + g.dir.1, g.dir);
    if Blocked(grid, rows, cols, next.row, next.col, wraps).value {
      WalkTurns(grid, rows, cols, g, fuel, wraps);
      WalkNonEmptyInside(grid, rows, cols, g.(dir := ChooseDirection(g.dir).value), fuel - 1, wraps);
    } else {
      WalkSteps(grid, rows, cols, g, fuel, wraps);
    }
  }

  /** Where the guard starts, as written: the cell `find_avatar` names, read with Python indexing. */
  function Start(grid: seq<seq<char>>): Result<Guard, Exc>
  {
    var (row, col) := AvatarFrom(grid, 0);
    match PyAt(grid, row)
    case Err(e) => Err(e)
    case Ok(line) =>
      match PyAt(line, col)
      case Err(e) => Err(e)
      case Ok(guard) =>
        match AvatarToDirection(guard)
        case Err(e) => Err(e)
        case Ok(d) => Ok(Guard(row, col, d))
  }

  /** `move_guard` as written, with the loop bounded by `fuel` passes. */
  function MoveGuardSpec(grid: seq<seq<char>>, fuel: nat): Option<Result<seq<Pos>, Exc>>
  {
    match Start(grid)
    case Err(e) => Some(Err(e))
    case Ok(g) =>
      match PyAt(grid, 0)
      case Err(e) => Some(Err(e))
      case Ok(first) => Walk(grid, |grid|, |first|, g, fuel, true)
  }

  /**
   * `move_guard`: the loop records the current cell and steps forward, or
   * turns in front of an obstacle, until the guard is off the grid.
   */
  method MoveGuard(grid: seq<seq<char>>, fuel: nat) returns (r: Option<Result<seq<Pos>, Exc>>)
    ensures r == MoveGuardSpec(grid, fuel)
  {
    var start := FindAvatar(grid);
    var (curRow, curCol) := start;
    var line := PyAt(grid, curRow);
    if line.Err? {
      return Some(Err(line.error));
    }
    var guard := PyAt(line.value, curCol);
    if guard.Err? {
      return Some(Err(guard.error));
    }
    var direction := AvatarToDirection(guard.value);
    if direction.Err? {
      return Some(Err(direction.error));
    }
    var dir := direction.value;
    var rows := |grid|;
    var cols := |grid[0]|;
    assert MoveGuardSpec(grid, fuel) == Walk(grid, rows, cols, Guard(curRow, curCol, dir), fuel, true);
    r := Patrol(grid, rows, cols, curRow, curCol, dir, fuel);
  }

  /** The `while True` loop of `move_guard`, from the guard's cell and heading. */
  method Patrol(grid: seq<seq<char>>, rows: int, cols: int, row: int, col: int, heading: Pos, fuel: nat)
    returns (r: Option<Result<seq<Pos>, Exc>>)
    ensures r == Walk(grid, rows, cols, Guard(row, col, heading), fuel, true)
  {
    var curRow, curCol, dir := row, col, heading;
    var positions: seq<Pos> := [];
    var left := fuel;
    PrependNothing(Walk(grid, rows, cols, Guard(row, col, heading), fuel, true));
    while true
      invariant Walk(grid, rows, cols, Guard(row, col, heading), fuel, true)
        == Prepend(positions, Walk(grid, rows, cols, Guard(curRow, curCol, dir), left, true))
      decreases left
    {
      var nextRow := curRow + dir.0;
      var nextCol := curCol + dir.1;
      if !(0 <= curRow < rows && 0 <= curCol < cols) {
        assert positions + [] == positions;
        return Some(Ok(positions));
      }
      if left == 0 {
        return None;
      }
      ghost var here := Walk(grid, rows, cols, Guard(curRow, curCol, dir), left, true);
      left := left - 1;
      var blocked := Blocked(grid, rows, cols, nextRow, nextCol, true);
      if blocked.Err? {
        return Some(Err(blocked.error));
      }
      if blocked.value {
        var turned := ChooseDirection(dir);
        if turned.Err? {
          return Some(Err(turned.error));
        }
        dir := turned.value;
        assert here == Walk(grid, rows, cols, Guard(curRow, curCol, dir), left, true);
        continue;
      }
      PrependTwice(positions, [(curRow, curCol)], Walk(grid, rows, cols, Guard(nextRow, nextCol, dir), left, true));
      positions := positions + [(curRow, curCol)];
      curRow := curRow + dir.0;
      curCol := curCol + dir.1;
    }
  }

  /** A start that raises nothing is the cell `find_avatar` found. */
  lemma StartFound(grid: seq<seq<char>>)
    ensures Start(grid).Ok? ==> AvatarFrom(grid, 0) != (-1, -1)
  {
    if AvatarFrom(grid, 0) == (-1, -1) && grid != [] && grid[|grid| - 1] != [] {
      NoGuardCell(grid);
    }
  }

  /**
   * On a grid with a guard, every recorded cell is in bounds, the walk is a
   * chain of unit steps from the guard, and it is empty only when the
   * guard's column lies beyond the width of the first row.
   */
  lemma MoveGuardIsPath(grid: seq<seq<char>>, fuel: nat)
    requires MoveGuardSpec(grid, fuel).Some? && MoveGuardSpec(grid, fuel).value.Ok?
    ensures Start(grid).Ok? && grid != []
    ensures Path(|grid|, |grid[0]|, (Start(grid).value.row, Start(grid).value.col), MoveGuardSpec(grid, fuel).value.value)
    ensures MoveGuardSpec(grid, fuel).value.value != [] <==> Start(grid).value.col < |grid[0]|
  {
    StartFound(grid);
    var g := Start(grid).value;
    WalkIsPath(grid, |grid|, |grid[0]|, g, fuel, true);
    WalkNonEmpty(grid, |grid|, |grid[0]|, g, fuel, true);
  }

  // ----------------------------------------------------------------- findings

  /**
   * With no guard on the grid, `find_avatar` answers (-1, -1), and
   * `grid[-1][-1]` is then the bottom-right cell, which is no avatar:
   * `avatar_to_direction` raises ValueError instead of the walk coming out empty.
   */
  lemma NoAvatarRaises(grid: seq<seq<char>>)
    requires grid != [] && grid[|grid| - 1] != []
    requires forall row :: 0 <= row < |grid| ==> !HasAvatar(grid[row])
    ensures forall fuel: nat :: MoveGuardSpec(grid, fuel) == Some(Err(ValueError))
  {
    NoGuardCell(grid);
  }

  lemma NoGuardCell(grid: seq<seq<char>>)
    requires grid != [] && grid[|grid| - 1] != []
    requires forall row :: 0 <= row < |grid| ==> !HasAvatar(grid[row])
    ensures grid[|grid| - 1][|grid[|grid| - 1]| - 1] !in AVATARS
  {
    var last := grid[|grid| - 1];
    assert !HasAvatar(last);
    var c := last[|last| - 1];
    assert c in last;
    assert forall k :: 0 <= k < |AVATARS| ==> AVATARS[k] != c;
  }

  /** A guard facing up from the top row, with an obstacle at the bottom of its column. */
  const WRAP_GRID: seq<seq<char>> := [['^', '.'], ['#', '.']]

  /**
   * As written, the guard on `WRAP_GRID` reads the bottom row's `#` through
   * index -1, turns right and records a second cell; it should have left the
   * grid at once.
   */
  lemma TopEdgeWraps()
    ensures MoveGuardSpec(WRAP_GRID, 3) == Some(Ok([(0, 0), (0, 1)]))
    ensures Walk(WRAP_GRID, 2, 2, Guard(0, 0, (-1, 0)), 3, false) == Some(Ok([(0, 0)]))
  {
    WrapStart();
    WrapWalk();
    var g := Guard(0, 0, (-1, 0));
    assert Walk(WRAP_GRID, 2, 2, Guard(-1, 0, (-1, 0)), 2, false) == Some(Ok([]));
    assert Blocked(WRAP_GRID, 2, 2, -1, 0, false) == Ok(false);
    assert [(0, 0)] + [] == [(0, 0)];
  }

  lemma WrapStart()
    ensures Start(WRAP_GRID) == Ok(Guard(0, 0, (-1, 0)))
  {
    assert AvatarFrom(WRAP_GRID, 0) == (0, 0) by {
      assert HasAvatar(WRAP_GRID[0]) by { assert AVATARS[0] in WRAP_GRID[0]; }
      assert AvatarIn(WRAP_GRID[0], 0) == 0;
    }
  }

  /** Up from the top row, as written: the bottom row's `#` turns the guard right along row 0. */
  lemma WrapWalk()
    ensures Walk(WRAP_GRID, 2, 2, Guard(0, 0, (-1, 0)), 3, true) == Some(Ok([(0, 0), (0, 1)]))
  {
    WrapWalkRight();
    assert Blocked(WRAP_GRID, 2, 2, -1, 0, true) == Ok(true);
  }

  lemma WrapWalkRight()
    ensures Walk(WRAP_GRID, 2, 2, Guard(0, 0, (0, 1)), 2, true) == Some(Ok([(0, 0), (0, 1)]))
  {
    assert Walk(WRAP_GRID, 2, 2, Guard(0, 2, (0, 1)), 0, true) == Some(Ok([]));
    assert Blocked(WRAP_GRID, 2, 2, 0, 2, true) == Ok(false);
    assert [(0, 1)] + [] == [(0, 1)];
    assert Walk(WRAP_GRID, 2, 2, Guard(0, 1, (0, 1)), 1, true) == Some(Ok([(0, 1)]));
    assert Blocked(WRAP_GRID, 2, 2, 0, 1, true) == Ok(false);
    assert [(0, 0)] + [(0, 1)] == [(0, 0), (0, 1)];
  }

  /** The corrected start: no guard on the grid means an empty walk. */
  function StartCorrected(grid: seq<seq<char>>): Option<Guard>
  {
    var (row, col) := AvatarFrom(grid, 0);
    if row == -1 then None
    else Some(Guard(row, col, AvatarToDirection(grid[row][col]).value))
  }

  /** `move_guard` with both corrections: an absent guard, and obstacles tested only inside the grid. */
  function MoveGuardCorrected(grid: seq<seq<char>>, fuel: nat): Option<Result<seq<Pos>, Exc>>
  {
    match StartCorrected(grid)
    case None => Some(Ok([]))
    case Some(g) => Walk(grid, |grid|, |grid[0]|, g, fuel, false)
  }

  /** Corrected: a grid without a guard gives an empty walk. */
  lemma NoGuardCorrected(grid: seq<seq<char>>, fuel: nat)
    requires forall row :: 0 <= row < |grid| ==> !HasAvatar(grid[row])
    ensures MoveGuardCorrected(grid, fuel) == Some(Ok([]))
  {
  }

  /** Corrected: a guard facing off the grid records its own cell and leaves. */
  lemma CorrectedLeaves(grid: seq<seq<char>>, g: Guard, fuel: nat)
    requires grid != [] && Inside(|grid|, |grid[0]|, g.row, g.col) && fuel > 0
    requires !Inside(|grid|, |grid[0]|, g.row + g.dir.0, g.col + g.dir.1)
    ensures Walk(grid, |grid|, |grid[0]|, g, fuel, false) == Some(Ok([(g.row, g.col)]))
  {
    var next := Guard(g.row + g.dir.0, g.col + g.dir.1, g.dir);
    assert Blocked(grid, |grid|, |grid[0]|, next.row, next.col, false) == Ok(false);
    assert Walk(grid, |grid|, |grid[0]|, next, fuel - 1, false) == Some(Ok([]));
    assert [(g.row, g.col)] + [] == [(g.row, g.col)];
  }
}
