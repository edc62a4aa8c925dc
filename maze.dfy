/** The maze mini-game: a fixed grid of walls and open cells, a player moved one
    cell at a time by the arrow keys or WASD, and a titan that patrols a fixed
    cycle of cells near the goal. Stepping onto the titan sends the player back
    to the start; reaching the goal wins. */
module Maze {
  import opened Lists

  type Grid = seq<string>

  /** The layout: '#' a wall, 'S' the start, 'G' the goal, '.' a path. */
  const Layout: Grid := [
    "################",
    "#S.....#.......#",
    "#.###.###.###..#",
    "#...#.....#....#",
    "###.#.#####.####",
    "#...#...#......#",
    "#.#####.#.####.#",
    "#.....#.#.#....#",
    "#.###.#.#.#.##.#",
    "#.#...#...#..#.#",
    "#.#.#######.#..#",
    "#...#.....#.#G.#",
    "################"
  ]

  /** A grid with at least one row, every row as long as the first. */
  predicate Rectangular(g: Grid)
  {
    |g| > 0 && forall y :: 0 <= y < |g| ==> |g[y]| == |g[0]|
  }

  function Rows(g: Grid): nat
  {
    |g|
  }

  function Cols(g: Grid): nat
    requires |g| > 0
  {
    |g[0]|
  }

  datatype Cell = Cell(x: int, y: int)

  predicate InBounds(g: Grid, c: Cell)
    requires Rectangular(g)
  {
    0 <= c.x < Cols(g) && 0 <= c.y < Rows(g)
  }

  function At(g: Grid, c: Cell): char
    requires Rectangular(g) && InBounds(g, c)
  {
    g[c.y][c.x]
  }

  /** `isWall`. */
  predicate IsWall(g: Grid, c: Cell)
    requires Rectangular(g) && InBounds(g, c)
  {
    At(g, c) == '#'
  }

  /** A cell the player may stand on. */
  predicate Open(g: Grid, c: Cell)
    requires Rectangular(g)
  {
    InBounds(g, c) && !IsWall(g, c)
  }

  /** Row-major order: the order in which the nested loops visit cells. */
  predicate Before(a: Cell, b: Cell)
  {
    a.y < b.y || (a.y == b.y && a.x < b.x)
  }

  /** Listed in row-major order, so without repetition. */
  predicate RowMajor(s: seq<Cell>)
  {
    forall i, j :: 0 <= i < j < |s| ==> Before(s[i], s[j])
  }

  ghost predicate Occurs(g: Grid, ch: char)
    requires Rectangular(g)
  {
    exists c :: InBounds(g, c) && At(g, c) == ch
  }

  /** `c` holds `ch`, and no cell visited before it does. */
  ghost predicate IsFirst(g: Grid, ch: char, c: Cell)
    requires Rectangular(g)
  {
    InBounds(g, c) && At(g, c) == ch &&
    forall d :: InBounds(g, d) && Before(d, c) ==> At(g, d) != ch
  }

  /** The `start` and `goal` searches: scan row by row, return the first cell
      holding `ch`, and the fallback when there is none. */
  method FindFirst(g: Grid, ch: char, fallback: Cell) returns (c: Cell)
    requires Rectangular(g)
    ensures Occurs(g, ch) ==> IsFirst(g, ch, c)
    ensures !Occurs(g, ch) ==> c == fallback
  {
    var rows, cols := |g|, |g[0]|;
    var y := 0;
    while y < rows
      invariant 0 <= y <= rows
      invariant forall d :: InBounds(g, d) && d.y < y ==> At(g, d) != ch
    {
      var x := 0;
      while x < cols
        invariant 0 <= x <= cols
        invariant forall d :: InBounds(g, d) && (d.y < y || (d.y == y && d.x < x)) ==> At(g, d) != ch
      {
        if g[y][x] == ch {
          assert At(g, Cell(x, y)) == ch;
          return Cell(x, y);
        }
        x := x + 1;
      }
      y := y + 1;
    }
    return fallback;
  }

  /** The first occurrence is unique, so the search result is determined. */
  lemma FirstUnique(g: Grid, ch: char, a: Cell, b: Cell)
    requires Rectangular(g) && IsFirst(g, ch, a) && IsFirst(g, ch, b)
    ensures a == b
  {
  }

  lemma LayoutRectangular()
    ensures Rectangular(Layout) && Rows(Layout) == 13 && Cols(Layout) == 16
  {
  }

  /** In the layout the start is the cell (1,1) and the goal the cell (13,11). */
  lemma LayoutStartGoal()
    ensures Rectangular(Layout)
    ensures IsFirst(Layout, 'S', Cell(1, 1))
    ensures IsFirst(Layout, 'G', Cell(13, 11))
  {
    LayoutMarks();
  }

  /** The layout marks exactly one start cell and exactly one goal cell. */
  lemma LayoutMarks()
    ensures Rectangular(Layout)
    ensures forall c :: InBounds(Layout, c) ==>
              (At(Layout, c) == 'S' <==> c == Cell(1, 1)) &&
              (At(Layout, c) == 'G' <==> c == Cell(13, 11))
  {
    LayoutRectangular();
    forall c | InBounds(Layout, c)
      ensures (At(Layout, c) == 'S' <==> c == Cell(1, 1)) && (At(Layout, c) == 'G' <==> c == Cell(13, 11))
    {
      if c.y == 1 {
        StartRow();
      } else if c.y == 11 {
        GoalRow();
      } else {
        PlainRow(c.y);
        assert At(Layout, c) in Layout[c.y];
      }
    }
  }

  lemma StartRow()
    ensures forall x :: 0 <= x < 16 ==> (Layout[1][x] == 'S' <==> x == 1) && Layout[1][x] != 'G'
  {
  }

  lemma GoalRow()
    ensures forall x :: 0 <= x < 16 ==> (Layout[11][x] == 'G' <==> x == 13) && Layout[11][x] != 'S'
  {
  }

  /** Every other row holds neither mark. */
  lemma PlainRow(y: int)
    requires 0 <= y < 13 && y != 1 && y != 11
    ensures 'S' !in Layout[y] && 'G' !in Layout[y]
  {
  }

  /** The layout has a start and a goal, so neither search falls back. */
  lemma LayoutOccurs()
    ensures Rectangular(Layout) && Occurs(Layout, 'S') && Occurs(Layout, 'G')
  {
    LayoutRectangular();
    assert At(Layout, Cell(1, 1)) == 'S' && At(Layout, Cell(13, 11)) == 'G';
  }

  /** Whatever the searches return on the layout is (1,1) and (13,11). */
  lemma LayoutSearches(s: Cell, gl: Cell)
    requires Rectangular(Layout)
    requires Occurs(Layout, 'S') ==> IsFirst(Layout, 'S', s)
    requires Occurs(Layout, 'G') ==> IsFirst(Layout, 'G', gl)
    ensures s == Cell(1, 1) && gl == Cell(13, 11)
    ensures Open(Layout, s) && s != gl
  {
    LayoutStartGoal();
    FirstUnique(Layout, 'S', s, Cell(1, 1));
    FirstUnique(Layout, 'G', gl, Cell(13, 11));
  }

  function Abs(n: int): nat
  {
    if n < 0 then -n else n
  }

  function Max(a: int, b: int): int
  {
    if a < b then b else a
  }

  /** Manhattan distance. */
  function Dist(a: Cell, b: Cell): nat
  {
    Abs(a.x - b.x) + Abs(a.y - b.y)
  }

  /** The filters of the patrol search: an open cell, neither goal nor start,
      two to four steps from the goal and at least six from the start. */
  predicate Qualifies(g: Grid, start: Cell, goal: Cell, c: Cell)
    requires Rectangular(g) && InBounds(g, c)
  {
    At(g, c) != '#' && c != goal && c != start &&
    2 <= Dist(goal, c) <= 4 && Dist(start, c) >= 6
  }

  /** The qualifying cells of row `y` among its first `x` columns, left to right. */
  function RowScan(g: Grid, start: Cell, goal: Cell, y: int, x: int): seq<Cell>
    requires Rectangular(g) && 0 <= y < Rows(g) && 0 <= x <= Cols(g)
    decreases x
  {
    if x == 0 then []
    else RowScan(g, start, goal, y, x - 1) +
         (if Qualifies(g, start, goal, Cell(x - 1, y)) then [Cell(x - 1, y)] else [])
  }

  /** The qualifying cells of the first `y` rows, in row-major order. */
  function Scan(g: Grid, start: Cell, goal: Cell, y: int): seq<Cell>
    requires Rectangular(g) && 0 <= y <= Rows(g)
    decreases y
  {
    if y == 0 then [] else Scan(g, start, goal, y - 1) + RowScan(g, start, goal, y - 1, Cols(g))
  }

  /** The single cell used when nothing qualifies: two columns left of the goal,
      but not left of column 1. */
  function FallbackCell(goal: Cell): Cell
  {
    Cell(Max(goal.x - 2, 1), goal.y)
  }

  /** `titanPath`: the candidates, or the fallback cell when there are none. */
  function PatrolPath(g: Grid, start: Cell, goal: Cell): seq<Cell>
    requires Rectangular(g)
  {
    var cs := Scan(g, start, goal, Rows(g));
    if |cs| > 0 then cs else [FallbackCell(goal)]
  }

  /** The patrol search as the nested loops compute it, pushing candidates. */
  method BuildPatrol(g: Grid, start: Cell, goal: Cell) returns (path: seq<Cell>)
    requires Rectangular(g)
    ensures path == PatrolPath(g, start, goal)
  {
    var rows, cols := |g|, |g[0]|;
    var candidates: seq<Cell> := [];
    var y := 0;
    while y < rows
      invariant 0 <= y <= rows
      invariant candidates == Scan(g, start, goal, y)
    {
      var x := 0;
      while x < cols
        invariant 0 <= x <= cols
        invariant candidates == Scan(g, start, goal, y) + RowScan(g, start, goal, y, x)
      {
        var c := Cell(x, y);
        assert At(g, c) == g[y][x] && Dist(goal, c) == Abs(goal.x - x) + Abs(goal.y - y) &&
               Dist(start, c) == Abs(start.x - x) + Abs(start.y - y);
        if g[y][x] != '#' && c != goal && c != start {
          var distToGoal := Abs(goal.x - x) + Abs(goal.y - y);
          var distToStart := Abs(start.x - x) + Abs(start.y - y);
          if 2 <= distToGoal <= 4 && distToStart >= 6 {
            candidates := candidates + [c];
          }
        }
        assert RowScan(g, start, goal, y, x + 1) ==
               RowScan(g, start, goal, y, x) + (if Qualifies(g, start, goal, c) then [c] else []);
        x := x + 1;
      }
      assert Scan(g, start, goal, y + 1) == Scan(g, start, goal, y) + RowScan(g, start, goal, y, cols);
      y := y + 1;
    }
    path := if |candidates| > 0 then candidates else [Cell(Max(goal.x - 2, 1), goal.y)];
  }

  /** Every cell a row scan yields lies in that row, before column `x`, and qualifies. */
  lemma RowScanSound(g: Grid, start: Cell, goal: Cell, y: int, x: int)
    requires Rectangular(g) && 0 <= y < Rows(g) && 0 <= x <= Cols(g)
    ensures forall c :: c in RowScan(g, start, goal, y, x) ==>
              c.y == y && 0 <= c.x < x && InBounds(g, c) && Qualifies(g, start, goal, c)
  {
    forall c | c in RowScan(g, start, goal, y, x)
      ensures c.y == y && 0 <= c.x < x && InBounds(g, c) && Qualifies(g, start, goal, c)
    {
      RowScanMember(g, start, goal, y, x, c);
    }
  }

  lemma {:induction false} RowScanMember(g: Grid, start: Cell, goal: Cell, y: int, x: int, c: Cell)
    requires Rectangular(g) && 0 <= y < Rows(g) && 0 <= x <= Cols(g)
    requires c in RowScan(g, start, goal, y, x)
    ensures c.y == y && 0 <= c.x < x && InBounds(g, c) && Qualifies(g, start, goal, c)
    decreases x
  {
    var r := RowScan(g, start, goal, y, x - 1);
    assert RowScan(g, start, goal, y, x) ==
           r + (if Qualifies(g, start, goal, Cell(x - 1, y)) then [Cell(x - 1, y)] else []);
    if c in r {
      RowScanMember(g, start, goal, y, x - 1, c);
    }
  }

  /** Every qualifying cell of the row before column `x` is yielded. */
  lemma {:induction false} RowScanComplete(g: Grid, start: Cell, goal: Cell, y: int, x: int, c: Cell)
    requires Rectangular(g) && 0 <= y < Rows(g) && 0 <= x <= Cols(g)
    requires c.y == y && 0 <= c.x < x && Qualifies(g, start, goal, c)
    ensures c in RowScan(g, start, goal, y, x)
    decreases x
  {
    if c.x < x - 1 {
      RowScanComplete(g, start, goal, y, x - 1, c);
    }
  }

  /** A row scan lists its cells left to right. */
  lemma {:induction false} RowScanOrdered(g: Grid, start: Cell, goal: Cell, y: int, x: int)
    requires Rectangular(g) && 0 <= y < Rows(g) && 0 <= x <= Cols(g)
    ensures RowMajor(RowScan(g, start, goal, y, x))
    decreases x
  {
    if x > 0 {
      RowScanOrdered(g, start, goal, y, x - 1);
      RowScanSound(g, start, goal, y, x - 1);
      var r := RowScan(g, start, goal, y, x - 1);
      var t := RowScan(g, start, goal, y, x);
      var c := Cell(x - 1, y);
      if Qualifies(g, start, goal, c) {
        assert t == r + [c];
        forall i, j | 0 <= i < j < |t| ensures Before(t[i], t[j]) {
          assert t[i] == r[i] && r[i] in r;
          assert r[i].y == y && r[i].x < x - 1;
          if j < |r| {
            assert t[j] == r[j];
            assert Before(r[i], r[j]);
          } else {
            assert t[j] == c;
            assert Before(r[i], c);
          }
        }
      } else {
        assert t == r;
      }
    }
  }

  /** Every cell the scan of the first `y` rows yields qualifies. */
  lemma ScanSound(g: Grid, start: Cell, goal: Cell, y: int)
    requires Rectangular(g) && 0 <= y <= Rows(g)
    ensures forall c :: c in Scan(g, start, goal, y) ==>
              0 <= c.y < y && InBounds(g, c) && Qualifies(g, start, goal, c)
  {
    forall c | c in Scan(g, start, goal, y)
      ensures 0 <= c.y < y && InBounds(g, c) && Qualifies(g, start, goal, c)
    {
      ScanMember(g, start, goal, y, c);
    }
  }

  lemma {:induction false} ScanMember(g: Grid, start: Cell, goal: Cell, y: int, c: Cell)
    requires Rectangular(g) && 0 <= y <= Rows(g)
    requires c in Scan(g, start, goal, y)
    ensures 0 <= c.y < y && InBounds(g, c) && Qualifies(g, start, goal, c)
    decreases y
  {
    var a, b := Scan(g, start, goal, y - 1), RowScan(g, start, goal, y - 1, Cols(g));
    assert Scan(g, start, goal, y) == a + b;
    if c in a {
      ScanMember(g, start, goal, y - 1, c);
    } else {
      RowScanMember(g, start, goal, y - 1, Cols(g), c);
    }
  }

  /** Every qualifying cell of the first `y` rows is yielded. */
  lemma {:induction false} ScanComplete(g: Grid, start: Cell, goal: Cell, y: int, c: Cell)
    requires Rectangular(g) && 0 <= y <= Rows(g)
    requires InBounds(g, c) && c.y < y && Qualifies(g, start, goal, c)
    ensures c in Scan(g, start, goal, y)
    decreases y
  {
    if c.y < y - 1 {
      ScanComplete(g, start, goal, y - 1, c);
    } else {
      RowScanComplete(g, start, goal, y - 1, Cols(g), c);
    }
  }

  /** The scan lists its cells in row-major order, hence without repetition. */
  lemma {:induction false} ScanOrdered(g: Grid, start: Cell, goal: Cell, y: int)
    requires Rectangular(g) && 0 <= y <= Rows(g)
    ensures RowMajor(Scan(g, start, goal, y))
    decreases y
  {
    if y > 0 {
      ScanOrdered(g, start, goal, y - 1);
      ScanSound(g, start, goal, y - 1);
      RowScanOrdered(g, start, goal, y - 1, Cols(g));
      RowScanSound(g, start, goal, y - 1, Cols(g));
      var a := Scan(g, start, goal, y - 1);
      var b := RowScan(g, start, goal, y - 1, Cols(g));
      var t := Scan(g, start, goal, y);
      assert t == a + b;
      forall i, j | 0 <= i < j < |t| ensures Before(t[i], t[j]) {
        if j < |a| {
          assert t[i] == a[i] && t[j] == a[j];
        } else if i < |a| {
          assert t[i] == a[i] && a[i] in a;
          assert t[j] == b[j - |a|] && b[j - |a|] in b;
        } else {
          assert t[i] == b[i - |a|] && t[j] == b[j - |a|];
        }
      }
    }
  }

  /** The patrol path is never empty. Its cells are exactly the qualifying cells,
      in row-major order, unless none qualifies; then it is the single fallback cell. */
  lemma PatrolPathSpec(g: Grid, start: Cell, goal: Cell)
    requires Rectangular(g)
    ensures var path := PatrolPath(g, start, goal);
      && |path| > 0
      && RowMajor(path)
      && (forall c :: InBounds(g, c) && Qualifies(g, start, goal, c) ==> c in path)
      && ((forall c :: c in path ==> InBounds(g, c) && Qualifies(g, start, goal, c))
          || (path == [FallbackCell(goal)] &&
              forall c :: InBounds(g, c) ==> !Qualifies(g, start, goal, c)))
  {
    ScanSound(g, start, goal, Rows(g));
    ScanOrdered(g, start, goal, Rows(g));
    forall c | InBounds(g, c) && Qualifies(g, start, goal, c)
      ensures c in Scan(g, start, goal, Rows(g))
    {
      ScanComplete(g, start, goal, Rows(g), c);
    }
  }

  /** The patrol never stands on the start or the goal, nor on a wall. */
  lemma PatrolAvoidsStartAndGoal(g: Grid, start: Cell, goal: Cell, c: Cell)
    requires Rectangular(g) && c in Scan(g, start, goal, Rows(g))
    ensures c != start && c != goal && Open(g, c)
    ensures 2 <= Dist(goal, c) <= 4 && Dist(start, c) >= 6
  {
    ScanSound(g, start, goal, Rows(g));
  }

  /** In the layout some cell qualifies, so the fallback is not used there. */
  lemma LayoutPatrolIsScan()
    ensures Rectangular(Layout)
    ensures PatrolPath(Layout, Cell(1, 1), Cell(13, 11)) == Scan(Layout, Cell(1, 1), Cell(13, 11), 13)
    ensures Cell(14, 10) in PatrolPath(Layout, Cell(1, 1), Cell(13, 11))
  {
    LayoutRectangular();
    ScanComplete(Layout, Cell(1, 1), Cell(13, 11), 13, Cell(14, 10));
  }

  /** The four key directions. */
  datatype Direction = Up | Down | Left | Right

  /** The cell one step away in a direction; y grows downwards. */
  function Neighbour(c: Cell, d: Direction): (r: Cell)
    ensures Dist(c, r) == 1
  {
    match d
    case Up => Cell(c.x, c.y - 1)
    case Down => Cell(c.x, c.y + 1)
    case Left => Cell(c.x - 1, c.y)
    case Right => Cell(c.x + 1, c.y)
  }

  /** ASCII `toLowerCase` of one character. */
  function LowerChar(ch: char): char
  {
    if 'A' <= ch <= 'Z' then (ch as int + 32) as char else ch
  }

  function Lower(s: string): string
  {
    seq(|s|, i requires 0 <= i < |s| => LowerChar(s[i]))
  }

  /** The key names each direction answers to, lower-cased. */
  function KeyNames(d: Direction): seq<string>
  {
    match d
    case Up => ["arrowup", "w"]
    case Down => ["arrowdown", "s"]
    case Left => ["arrowleft", "a"]
    case Right => ["arrowright", "d"]
  }

  /** The key handler's mapping of `event.key` to a move. */
  function KeyDirection(key: string): Option<Direction>
  {
    var k := Lower(key);
    if k == "arrowup" || k == "w" then Some(Up)
    else if k == "arrowdown" || k == "s" then Some(Down)
    else if k == "arrowleft" || k == "a" then Some(Left)
    else if k == "arrowright" || k == "d" then Some(Right)
    else None
  }

  /** A key moves in a direction exactly when its lower-cased name is one of
      that direction's names; every other key does nothing. */
  lemma KeyDirectionSpec(key: string, d: Direction)
    ensures KeyDirection(key) == Some(d) <==> Lower(key) in KeyNames(d)
    ensures KeyDirection(key) == None <==>
              Lower(key) !in KeyNames(Up) + KeyNames(Down) + KeyNames(Left) + KeyNames(Right)
  {
  }

  /** `getCellType`: how a layout character is drawn. */
  datatype CellType = Wall | PathCell | StartCell | GoalCell

  function GetCellType(ch: char): CellType
  {
    if ch == '#' then Wall
    else if ch == 'S' then StartCell
    else if ch == 'G' then GoalCell
    else PathCell
  }

  /** A cell is drawn as a wall exactly when the move check treats it as one;
      in the layout the start and goal cells are drawn as such. */
  lemma CellTypeAgrees(g: Grid, c: Cell)
    requires Rectangular(g) && InBounds(g, c)
    ensures GetCellType(At(g, c)) == Wall <==> IsWall(g, c)
    ensures g == Layout ==> (GetCellType(At(g, c)) == StartCell <==> c == Cell(1, 1))
    ensures g == Layout ==> (GetCellType(At(g, c)) == GoalCell <==> c == Cell(13, 11))
  {
    if g == Layout {
      LayoutMarks();
    }
  }

  /** The game's state. The grid, start, goal and patrol path are fixed when the
      component mounts; the position, the two flags and the patrol index change. */
  class MazeGame {
    const maze: Grid
    const start: Cell
    const goal: Cell
    const titanPath: seq<Cell>
    var position: Cell
    var isWin: bool
    var hitTitan: bool
    var titanIndex: int

    ghost predicate Valid()
      reads this
    {
      && Rectangular(maze) && Open(maze, start) && start != goal
      && |titanPath| > 0
      && 0 <= titanIndex < |titanPath|
      && Open(maze, position)
    }

    /** The titan's cell: `titanPath[titanIndex % titanPath.length]`. */
    function Titan(): Cell
      reads this
      requires Valid()
    {
      titanPath[titanIndex % |titanPath|]
    }

    /** Mounting: find start and goal, build the patrol, stand on the start. */
    constructor ()
      ensures Valid()
      ensures maze == Layout && Rectangular(maze)
      ensures IsFirst(maze, 'S', start) && IsFirst(maze, 'G', goal)
      ensures titanPath == PatrolPath(maze, start, goal)
      ensures position == start && !isWin && !hitTitan && titanIndex == 0
    {
      var g := Layout;
      LayoutOccurs();
      var s := FindFirst(g, 'S', Cell(1, 1));
      var gl := FindFirst(g, 'G', Cell(|g[0]| - 2, |g| - 2));
      var path := BuildPatrol(g, s, gl);
      PatrolPathSpec(g, s, gl);
      maze, start, goal, titanPath := g, s, gl, path;
      position, isWin, hitTitan, titanIndex := s, false, false, 0;
    }

    /** `tryMove`: ignored after a win, off the grid or into a wall; onto the
        titan it sends the player back to the start; otherwise it steps. */
    method TryMove(d: Direction)
      requires Valid()
      modifies this
      ensures Valid()
      ensures titanIndex == old(titanIndex)
      ensures var next := Neighbour(old(position), d);
        if old(isWin) || !Open(maze, next) then
          position == old(position) && isWin == old(isWin) && hitTitan == old(hitTitan)
        else if next == old(Titan()) then
          position == start && !isWin && hitTitan
        else
          position == next && !hitTitan && isWin == old(isWin)
    {
      if isWin {
        return;
      }
      var next := Neighbour(position, d);
      if next.x < 0 || next.y < 0 || next.x >= |maze[0]| || next.y >= |maze| {
        return;
      }
      if maze[next.y][next.x] == '#' {
        return;
      }
      if next == titanPath[titanIndex % |titanPath|] {
        position := start;
        isWin := false;
        hitTitan := true;
        return;
      }
      hitTitan := false;
      position := next;
    }

    /** The effect that runs when the position changes: reaching the goal wins. */
    method WinEffect()
      requires Valid()
      modifies this
      ensures Valid()
      ensures position == old(position) && hitTitan == old(hitTitan) && titanIndex == old(titanIndex)
      ensures isWin == (old(isWin) || position == goal)
    {
      if position == goal {
        isWin := true;
      }
    }

    /** One press of a direction key: the move, then the win effect when the
        position changed. */
    method Move(d: Direction)
      requires Valid()
      modifies this
      ensures Valid()
      ensures titanIndex == old(titanIndex)
      ensures var next := Neighbour(old(position), d);
        if old(isWin) || !Open(maze, next) then
          position == old(position) && isWin == old(isWin) && hitTitan == old(hitTitan)
        else if next == old(Titan()) then
          position == start && !isWin && hitTitan
        else
          position == next && !hitTitan && (isWin <==> next == goal)
    {
      var before := position;
      TryMove(d);
      if position != before {
        WinEffect();
      }
    }

    /** The key handler. */
    method KeyDown(key: string)
      requires Valid()
      modifies this
      ensures Valid()
      ensures KeyDirection(key) == None ==>
                position == old(position) && isWin == old(isWin) &&
                hitTitan == old(hitTitan) && titanIndex == old(titanIndex)
      ensures KeyDirection(key).Some? ==> Open(maze, position) && titanIndex == old(titanIndex)
      ensures KeyDirection(key).Some? ==>
        var next := Neighbour(old(position), KeyDirection(key).value);
        if old(isWin) || !Open(maze, next) then
          position == old(position) && isWin == old(isWin) && hitTitan == old(hitTitan)
        else if next == old(Titan()) then
          position == start && !isWin && hitTitan
        else
          position == next && !hitTitan && (isWin <==> next == goal)
    {
      match KeyDirection(key)
      case Some(d) => Move(d);
      case None =>
    }

    /** The patrol timer: one step along the path, wrapping round. */
    method PatrolTick()
      requires Valid()
      modifies this
      ensures Valid()
      ensures position == old(position) && isWin == old(isWin) && hitTitan == old(hitTitan)
      ensures titanIndex == (old(titanIndex) + 1) % |titanPath|
      ensures Titan() == titanPath[titanIndex]
    {
      titanIndex := (titanIndex + 1) % |titanPath|;
    }

    /** "Play Again": everything back to the mounted state. */
    method Reset()
      requires Valid()
      modifies this
      ensures Valid()
      ensures position == start && !isWin && !hitTitan && titanIndex == 0
    {
      position := start;
      isWin := false;
      hitTitan := false;
      titanIndex := 0;
    }

    /** "Maybe Later": the win overlay closes; nothing else changes. */
    method Dismiss()
      requires Valid()
      modifies this
      ensures Valid()
      ensures !isWin
      ensures position == old(position) && hitTitan == old(hitTitan) && titanIndex == old(titanIndex)
    {
      isWin := false;
    }
  }
}
