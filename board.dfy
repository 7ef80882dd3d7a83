/** The whole-grid effect of one move (MainActivity.moveTiles), as values.
 *
 *  A move compacts every logical line of the grid read through RotateCell; the
 *  grid it leaves, the score it earns, whether a merge reached the winning
 *  value, and the count of lines whose last slot stays occupied are defined
 *  here as functions of the grid before the move. The in-place loop of the
 *  game class is proved to produce exactly these. */
module Board {
  import opened Rotation
  import opened Compaction

  /** A grid of tile values indexed [row][column]; 0 is an empty cell. */
  type Grid = seq<seq<int>>

  predicate IsSquare(g: Grid, n: int) {
    |g| == n && forall i :: 0 <= i < n ==> |g[i]| == n
  }

  /** A grid of a game in progress: every cell a tile value below the winning value. */
  predicate IsPlayingGrid(g: Grid, n: int) {
    IsSquare(g, n) &&
    forall i, j :: 0 <= i < n && 0 <= j < n ==> IsTile(g[i][j]) && g[i][j] < WinValue
  }

  /** Logical line `row` of the grid for the given angle, slot 0 first. */
  function LineAt(g: Grid, n: int, angle: int, row: int): (line: seq<int>)
    requires IsSquare(g, n) && IsRightAngle(angle) && 0 <= row < n
    ensures |line| == n
  {
    seq(n, k requires 0 <= k < n =>
      var c := RotateCell(n, row, k, angle); g[c.row][c.column])
  }

  /** The grid after compacting every logical line. */
  function Moved(g: Grid, n: int, angle: int): (r: Grid)
    requires IsSquare(g, n) && IsRightAngle(angle)
    ensures IsSquare(r, n)
  {
    seq(n, i requires 0 <= i < n => seq(n, j requires 0 <= j < n =>
      var c := Unrotate(n, Cell(i, j), angle);
      CompactLine(LineAt(g, n, angle, c.row)).line[c.column]))
  }

  /** Score earned by the first `rows` lines of a move. */
  function GainUpTo(g: Grid, n: int, angle: int, rows: int): int
    requires IsSquare(g, n) && IsRightAngle(angle) && 0 <= rows <= n
  {
    if rows == 0 then 0
    else GainUpTo(g, n, angle, rows - 1) + CompactLine(LineAt(g, n, angle, rows - 1)).gained
  }

  /** Some merge among the first `rows` lines reached the winning value. */
  predicate WonUpTo(g: Grid, n: int, angle: int, rows: int)
    requires IsSquare(g, n) && IsRightAngle(angle) && 0 <= rows <= n
  {
    rows > 0 && (WonUpTo(g, n, angle, rows - 1) || CompactLine(LineAt(g, n, angle, rows - 1)).won)
  }

  /** Some line among the first `rows` is changed by the move. */
  predicate ChangedUpTo(g: Grid, n: int, angle: int, rows: int)
    requires IsSquare(g, n) && IsRightAngle(angle) && 0 <= rows <= n
  {
    rows > 0 &&
    (ChangedUpTo(g, n, angle, rows - 1) ||
     CompactLine(LineAt(g, n, angle, rows - 1)).line != LineAt(g, n, angle, rows - 1))
  }

  /** The cell value in the last logical slot of line r. */
  function LastSlot(g: Grid, n: int, angle: int, r: int): int
    requires IsSquare(g, n) && IsRightAngle(angle) && 0 <= r < n
  {
    var c := RotateCell(n, r, n - 1, angle);
    g[c.row][c.column]
  }

  /** Number of lines among the first `rows` whose last logical slot is occupied. */
  function CountLast(g: Grid, n: int, angle: int, rows: int): (count: int)
    requires IsSquare(g, n) && IsRightAngle(angle) && 0 <= rows <= n
    ensures 0 <= count <= rows
  {
    if rows == 0 then 0
    else CountLast(g, n, angle, rows - 1) + (if LastSlot(g, n, angle, rows - 1) != 0 then 1 else 0)
  }

  /** Lines row .. n-1 of h are the compacted lines of g. */
  predicate CompactedFrom(g: Grid, h: Grid, n: int, angle: int, row: int)
    requires IsSquare(g, n) && IsSquare(h, n) && IsRightAngle(angle) && 0 <= row <= n
    decreases n - row
  {
    row == n ||
    (LineAt(h, n, angle, row) == CompactLine(LineAt(g, n, angle, row)).line &&
     CompactedFrom(g, h, n, angle, row + 1))
  }

  lemma {:induction false} CompactedFromLines(g: Grid, h: Grid, n: int, angle: int, row: int)
    requires IsSquare(g, n) && IsSquare(h, n) && IsRightAngle(angle) && 0 <= row <= n
    requires forall r :: row <= r < n ==> LineAt(h, n, angle, r) == CompactLine(LineAt(g, n, angle, r)).line
    ensures CompactedFrom(g, h, n, angle, row)
    decreases n - row
  {
    if row < n {
      CompactedFromLines(g, h, n, angle, row + 1);
    }
  }

  /** Grid c holds lines 0 .. rows-1 of h and the other lines of g: the grid
   *  part way through a move that compacts g into h. */
  predicate MovedUpTo(c: Grid, g: Grid, h: Grid, n: int, angle: int, rows: int)
    requires IsSquare(c, n) && IsSquare(g, n) && IsSquare(h, n) && IsRightAngle(angle)
  {
    forall r :: 0 <= r < n ==> LineAt(c, n, angle, r) == if r < rows then LineAt(h, n, angle, r) else LineAt(g, n, angle, r)
  }

  /** Replacing line `rows` of a grid part way through a move by that line of
   *  h takes the move one line further. */
  lemma MovedUpToNext(a: Grid, b: Grid, g: Grid, h: Grid, n: int, angle: int, rows: int)
    requires IsSquare(a, n) && IsSquare(b, n) && IsSquare(g, n) && IsSquare(h, n) && IsRightAngle(angle)
    requires 0 <= rows < n && MovedUpTo(a, g, h, n, angle, rows)
    requires LineAt(b, n, angle, rows) == LineAt(h, n, angle, rows)
    requires forall r :: 0 <= r < n && r != rows ==> LineAt(b, n, angle, r) == LineAt(a, n, angle, r)
    ensures MovedUpTo(b, g, h, n, angle, rows + 1)
  {
  }

  /** A grid holding every line of h is h. */
  lemma MovedAll(c: Grid, g: Grid, h: Grid, n: int, angle: int)
    requires IsSquare(c, n) && IsSquare(g, n) && IsSquare(h, n) && IsRightAngle(angle)
    requires MovedUpTo(c, g, h, n, angle, n)
    ensures c == h
  {
    assert forall r :: 0 <= r < n ==> LineAt(c, n, angle, r) == LineAt(h, n, angle, r);
    LinesDetermineGrid(c, h, n, angle);
  }

  /** One more line of a move: its score, change and win join those of the
   *  lines before it. */
  lemma UpToNext(g: Grid, n: int, angle: int, rows: int)
    requires IsSquare(g, n) && IsRightAngle(angle) && 0 <= rows < n
    ensures var c := CompactLine(LineAt(g, n, angle, rows));
      GainUpTo(g, n, angle, rows + 1) == GainUpTo(g, n, angle, rows) + c.gained &&
      ChangedUpTo(g, n, angle, rows + 1) == (ChangedUpTo(g, n, angle, rows) || c.line != LineAt(g, n, angle, rows)) &&
      WonUpTo(g, n, angle, rows + 1) == (WonUpTo(g, n, angle, rows) || c.won)
  {
  }

  lemma CountLastNext(g: Grid, n: int, angle: int, rows: int)
    requires IsSquare(g, n) && IsRightAngle(angle) && 0 <= rows < n
    ensures CountLast(g, n, angle, rows + 1) ==
      CountLast(g, n, angle, rows) + (if LineAt(g, n, angle, rows)[n - 1] != 0 then 1 else 0)
  {
    LineAtSlot(g, n, angle, rows, n - 1);
  }

  predicate HasEmpty(g: Grid, n: int)
    requires IsSquare(g, n)
  {
    exists i, j :: 0 <= i < n && 0 <= j < n && g[i][j] == 0
  }

  /** The game is over: every cell is occupied and no two horizontally or
   *  vertically adjacent cells hold equal values. Once the game is over, no
   *  move can change the grid (GameOverUnchanged). */
  predicate GameOver(g: Grid, n: int)
    requires IsSquare(g, n)
  {
    (forall i, j :: 0 <= i < n && 0 <= j < n ==> g[i][j] != 0) &&
    (forall i, j :: 0 <= i < n && 0 <= j < n - 1 ==> DiffersRight(g, n, i, j)) &&
    (forall i, j :: 0 <= i < n - 1 && 0 <= j < n ==> DiffersBelow(g, n, i, j))
  }

  /** Cell (i, j) and its right-hand neighbour hold different values. */
  predicate DiffersRight(g: Grid, n: int, i: int, j: int)
    requires IsSquare(g, n) && 0 <= i < n && 0 <= j < n - 1
  {
    g[i][j] != g[i][j + 1]
  }

  /** Cell (i, j) and the cell below it hold different values. */
  predicate DiffersBelow(g: Grid, n: int, i: int, j: int)
    requires IsSquare(g, n) && 0 <= i < n - 1 && 0 <= j < n
  {
    g[i][j] != g[i + 1][j]
  }

  /** Every cell holds a tile value (0 or a power of two >= 2). */
  predicate IsTileGrid(g: Grid, n: int) {
    IsSquare(g, n) && forall i, j :: 0 <= i < n && 0 <= j < n ==> IsTile(g[i][j])
  }

  /** The grid without any tile. */
  function EmptyGrid(n: nat): (g: Grid)
    ensures IsSquare(g, n) && forall i, j :: 0 <= i < n && 0 <= j < n ==> g[i][j] == 0
  {
    seq(n, _ => seq(n, _ => 0))
  }

  /** Two square grids with the same cells are the same grid. */
  lemma GridsEqual(g: Grid, h: Grid, n: int)
    requires IsSquare(g, n) && IsSquare(h, n)
    requires forall i, j :: 0 <= i < n && 0 <= j < n ==> g[i][j] == h[i][j]
    ensures g == h
  {
    forall i | 0 <= i < n
      ensures g[i] == h[i]
    {
    }
  }

  /** The grid with cell c set to v and every other cell kept. */
  function Put(g: Grid, n: int, c: Cell, v: int): (h: Grid)
    requires IsSquare(g, n) && 0 <= c.row < n && 0 <= c.column < n
    ensures IsSquare(h, n) && h[c.row][c.column] == v
    ensures forall i, j :: 0 <= i < n && 0 <= j < n && (i != c.row || j != c.column) ==> h[i][j] == g[i][j]
  {
    g[c.row := g[c.row][c.column := v]]
  }

  /** `after` is `before` with the empty cell c filled by a new tile 2. */
  predicate SpawnAt(before: Grid, after: Grid, n: int, c: Cell)
    requires IsSquare(before, n)
  {
    0 <= c.row < n && 0 <= c.column < n && before[c.row][c.column] == 0 &&
    after == Put(before, n, c, 2)
  }

  ghost predicate Spawned(before: Grid, after: Grid, n: int)
    requires IsSquare(before, n)
  {
    exists c :: SpawnAt(before, after, n, c)
  }

  /** A tile spawned on an empty grid of side at least 2 leaves an empty cell. */
  lemma SpawnedOnEmpty(n: int, mid: Grid)
    requires n >= 2 && Spawned(EmptyGrid(n), mid, n)
    ensures IsSquare(mid, n) && HasEmpty(mid, n)
  {
    var c :| SpawnAt(EmptyGrid(n), mid, n, c);
    var other := if c == Cell(0, 0) then Cell(0, 1) else Cell(0, 0);
    assert mid[other.row][other.column] == 0;
  }

  /** Two tiles spawned one after the other on an empty grid: they sit in
   *  two different cells, and the grid is a playing grid. */
  lemma SpawnedTwice(n: int, mid: Grid, g: Grid) returns (c1: Cell, c2: Cell)
    requires n >= 0 && Spawned(EmptyGrid(n), mid, n) && IsSquare(mid, n) && Spawned(mid, g, n)
    ensures 0 <= c1.row < n && 0 <= c1.column < n && 0 <= c2.row < n && 0 <= c2.column < n
    ensures c1 != c2 && g == Put(Put(EmptyGrid(n), n, c1, 2), n, c2, 2)
    ensures IsPlayingGrid(g, n)
  {
    c1 :| SpawnAt(EmptyGrid(n), mid, n, c1);
    c2 :| SpawnAt(mid, g, n, c2);
    forall i, j | 0 <= i < n && 0 <= j < n
      ensures IsTile(g[i][j]) && g[i][j] < WinValue
    {
      assert g[i][j] == 0 || g[i][j] == 2;
    }
  }

  // ---------------------------------------------------------------------------
  // The lines of the moved grid

  /** Slot k of line r is the physical cell RotateCell(n, r, k, angle). */
  lemma LineAtSlot(g: Grid, n: int, angle: int, r: int, k: int)
    requires IsSquare(g, n) && IsRightAngle(angle) && 0 <= r < n && 0 <= k < n
    ensures var c := RotateCell(n, r, k, angle);
      0 <= c.row < n && 0 <= c.column < n && LineAt(g, n, angle, r)[k] == g[c.row][c.column]
  {
  }

  /** Physical cell (i, j) is slot Unrotate(..).column of line Unrotate(..).row. */
  lemma CellInLine(g: Grid, n: int, angle: int, i: int, j: int)
    requires IsSquare(g, n) && IsRightAngle(angle) && 0 <= i < n && 0 <= j < n
    ensures var c := Unrotate(n, Cell(i, j), angle);
      0 <= c.row < n && 0 <= c.column < n && LineAt(g, n, angle, c.row)[c.column] == g[i][j]
  {
    var c := Unrotate(n, Cell(i, j), angle);
    RotateUnrotate(n, Cell(i, j), angle);
    LineAtSlot(g, n, angle, c.row, c.column);
  }

  /** Cell (i, j) of the moved grid is its slot of its compacted line. */
  lemma MovedAt(g: Grid, n: int, angle: int, i: int, j: int)
    requires IsSquare(g, n) && IsRightAngle(angle) && 0 <= i < n && 0 <= j < n
    ensures var c := Unrotate(n, Cell(i, j), angle);
      0 <= c.row < n && 0 <= c.column < n &&
      Moved(g, n, angle)[i][j] == CompactLine(LineAt(g, n, angle, c.row)).line[c.column]
  {
  }

  /** Every logical line of the moved grid is that line compacted. */
  lemma MovedLines(g: Grid, n: int, angle: int)
    requires IsSquare(g, n) && IsRightAngle(angle)
    ensures forall r :: 0 <= r < n ==>
      LineAt(Moved(g, n, angle), n, angle, r) == CompactLine(LineAt(g, n, angle, r)).line
  {
    var h := Moved(g, n, angle);
    forall r | 0 <= r < n
      ensures LineAt(h, n, angle, r) == CompactLine(LineAt(g, n, angle, r)).line
    {
      forall k | 0 <= k < n
        ensures LineAt(h, n, angle, r)[k] == CompactLine(LineAt(g, n, angle, r)).line[k]
      {
        var c := RotateCell(n, r, k, angle);
        LineAtSlot(h, n, angle, r, k);
        UnrotateRotate(n, r, k, angle);
        MovedAt(g, n, angle, c.row, c.column);
      }
    }
  }

  /** Two grids are equal exactly when all their logical lines are. */
  lemma LinesDetermineGrid(g: Grid, h: Grid, n: int, angle: int)
    requires IsSquare(g, n) && IsSquare(h, n) && IsRightAngle(angle)
    requires forall r :: 0 <= r < n ==> LineAt(g, n, angle, r) == LineAt(h, n, angle, r)
    ensures g == h
  {
    forall i | 0 <= i < n
      ensures g[i] == h[i]
    {
      forall j | 0 <= j < n
        ensures g[i][j] == h[i][j]
      {
        CellInLine(g, n, angle, i, j);
        CellInLine(h, n, angle, i, j);
      }
    }
  }

  lemma ChangedUpToWitness(g: Grid, n: int, angle: int, rows: int)
    requires IsSquare(g, n) && IsRightAngle(angle) && 0 <= rows <= n
    ensures ChangedUpTo(g, n, angle, rows) <==>
      exists r :: 0 <= r < rows && CompactLine(LineAt(g, n, angle, r)).line != LineAt(g, n, angle, r)
  {
    if ChangedUpTo(g, n, angle, rows) {
      ChangedSomeLine(g, n, angle, rows);
    } else {
      forall r | 0 <= r < rows
        ensures CompactLine(LineAt(g, n, angle, r)).line == LineAt(g, n, angle, r)
      {
        UnchangedLine(g, n, angle, rows, r);
      }
    }
  }

  lemma {:induction false} ChangedSomeLine(g: Grid, n: int, angle: int, rows: int)
    requires IsSquare(g, n) && IsRightAngle(angle) && 0 <= rows <= n
    requires ChangedUpTo(g, n, angle, rows)
    ensures exists r :: 0 <= r < rows && CompactLine(LineAt(g, n, angle, r)).line != LineAt(g, n, angle, r)
    decreases rows
  {
    if ChangedUpTo(g, n, angle, rows - 1) {
      ChangedSomeLine(g, n, angle, rows - 1);
    }
  }

  lemma {:induction false} UnchangedLine(g: Grid, n: int, angle: int, rows: int, r: int)
    requires IsSquare(g, n) && IsRightAngle(angle) && 0 <= r < rows <= n
    requires !ChangedUpTo(g, n, angle, rows)
    ensures CompactLine(LineAt(g, n, angle, r)).line == LineAt(g, n, angle, r)
    decreases rows
  {
    if r < rows - 1 {
      UnchangedLine(g, n, angle, rows - 1, r);
    }
  }

  /** In a finished game every logical line is settled: each slot holds a
   *  tile, and neighbouring slots are neighbouring cells, which differ. */
  lemma GameOverLineSettled(g: Grid, n: int, angle: int, r: int)
    requires IsSquare(g, n) && IsRightAngle(angle) && 0 <= r < n && GameOver(g, n)
    ensures Settled(LineAt(g, n, angle, r))
  {
    var l := LineAt(g, n, angle, r);
    forall k | 0 <= k < n
      ensures l[k] != 0
    {
      LineAtSlot(g, n, angle, r, k);
    }
    forall k | 0 <= k < n - 1
      ensures l[k] != l[k + 1]
    {
      LineAtSlot(g, n, angle, r, k);
      LineAtSlot(g, n, angle, r, k + 1);
      if angle == 0 {
        assert DiffersRight(g, n, r, k);
      } else if angle == 90 {
        assert DiffersBelow(g, n, k, n - 1 - r);
      } else if angle == 180 {
        assert DiffersRight(g, n, n - 1 - r, n - 2 - k);
      } else {
        assert DiffersBelow(g, n, n - 2 - k, r);
      }
    }
  }

  /** No move can change a grid in which the game is over. */
  lemma GameOverUnchanged(g: Grid, n: int, angle: int)
    requires IsSquare(g, n) && IsRightAngle(angle) && GameOver(g, n)
    ensures Moved(g, n, angle) == g
  {
    forall r | 0 <= r < n
      ensures CompactLine(LineAt(g, n, angle, r)).line == LineAt(g, n, angle, r)
    {
      GameOverLineSettled(g, n, angle, r);
      CompactLineFixedPoint(LineAt(g, n, angle, r));
    }
    ChangedUpToWitness(g, n, angle, n);
    MovedChanged(g, n, angle);
  }

  /** A move changes the grid exactly when it changes some line. */
  lemma MovedChanged(g: Grid, n: int, angle: int)
    requires IsSquare(g, n) && IsRightAngle(angle)
    ensures Moved(g, n, angle) != g <==> ChangedUpTo(g, n, angle, n)
  {
    MovedLines(g, n, angle);
    ChangedUpToWitness(g, n, angle, n);
    if !ChangedUpTo(g, n, angle, n) {
      LinesDetermineGrid(Moved(g, n, angle), g, n, angle);
    }
  }

  /** A move that changes nothing earns nothing and cannot win; a winning move
   *  changes the grid. */
  lemma {:induction false} UnchangedEarnsNothing(g: Grid, n: int, angle: int, rows: int)
    requires IsSquare(g, n) && IsRightAngle(angle) && 0 <= rows <= n
    ensures !ChangedUpTo(g, n, angle, rows) ==> GainUpTo(g, n, angle, rows) == 0
    ensures WonUpTo(g, n, angle, rows) ==> ChangedUpTo(g, n, angle, rows)
    decreases rows
  {
    if rows > 0 {
      UnchangedEarnsNothing(g, n, angle, rows - 1);
      CompactLineFixedPoint(LineAt(g, n, angle, rows - 1));
    }
  }

  /** A move keeps every cell a tile value; a move that does not win keeps a
   *  playing grid a playing grid. */
  lemma MovedTiles(g: Grid, n: int, angle: int)
    requires IsSquare(g, n) && IsRightAngle(angle)
    requires forall i, j :: 0 <= i < n && 0 <= j < n ==> IsTile(g[i][j])
    ensures forall i, j :: 0 <= i < n && 0 <= j < n ==> IsTile(Moved(g, n, angle)[i][j])
    ensures IsPlayingGrid(g, n) && !WonUpTo(g, n, angle, n) ==> IsPlayingGrid(Moved(g, n, angle), n)
  {
    forall i, j | 0 <= i < n && 0 <= j < n
      ensures IsTile(Moved(g, n, angle)[i][j])
      ensures IsPlayingGrid(g, n) && !WonUpTo(g, n, angle, n) ==> Moved(g, n, angle)[i][j] < WinValue
    {
      var c := Unrotate(n, Cell(i, j), angle);
      MovedAt(g, n, angle, i, j);
      var l := LineAt(g, n, angle, c.row);
      forall k | 0 <= k < n
        ensures IsTile(l[k]) && (IsPlayingGrid(g, n) ==> l[k] < WinValue)
      {
        LineAtSlot(g, n, angle, c.row, k);
      }
      CompactLineTiles(l);
      if !WonUpTo(g, n, angle, n) {
        WonUpToLine(g, n, angle, n, c.row);
      }
    }
  }

  lemma {:induction false} WonUpToLine(g: Grid, n: int, angle: int, rows: int, r: int)
    requires IsSquare(g, n) && IsRightAngle(angle) && 0 <= r < rows <= n
    requires !WonUpTo(g, n, angle, rows)
    ensures !CompactLine(LineAt(g, n, angle, r)).won
    decreases rows
  {
    if r < rows - 1 {
      WonUpToLine(g, n, angle, rows - 1, r);
    }
  }

  // ---------------------------------------------------------------------------
  // The count of occupied last slots

  lemma {:induction false} CountLastWitness(g: Grid, n: int, angle: int, rows: int)
    requires IsSquare(g, n) && IsRightAngle(angle) && 0 <= rows <= n
    ensures CountLast(g, n, angle, rows) < rows <==>
      exists r :: 0 <= r < rows && LineAt(g, n, angle, r)[n - 1] == 0
    decreases rows
  {
    if rows > 0 {
      CountLastWitness(g, n, angle, rows - 1);
      LineAtSlot(g, n, angle, rows - 1, n - 1);
    }
  }

  /** What the engine needs of a move, stated of the moved grid h: every
   *  line of h is its line of g compacted, h differs from g exactly when a
   *  line changed, tile values stay tile values, a move that does not win
   *  keeps a playing grid, and h has an empty cell exactly when fewer than n
   *  lines end in an occupied slot. */
  lemma MovePlan(g: Grid, n: int, angle: int, h: Grid)
    requires IsSquare(g, n) && IsRightAngle(angle) && h == Moved(g, n, angle)
    ensures IsSquare(h, n)
    ensures CompactedFrom(g, h, n, angle, 0)
    ensures (h != g) == ChangedUpTo(g, n, angle, n)
    ensures IsTileGrid(g, n) ==> IsTileGrid(h, n)
    ensures IsPlayingGrid(g, n) && !WonUpTo(g, n, angle, n) ==> IsPlayingGrid(h, n)
    ensures CountLast(h, n, angle, n) < n <==> HasEmpty(h, n)
  {
    MovedLines(g, n, angle);
    CompactedFromLines(g, h, n, angle, 0);
    MovedChanged(g, n, angle);
    CountLastEmpty(g, n, angle);
    if IsTileGrid(g, n) {
      MovedTiles(g, n, angle);
    }
  }

  /** Line r of h is line r of g compacted, for every r from `row` on. */
  lemma {:induction false} CompactedFromLine(g: Grid, h: Grid, n: int, angle: int, row: int, r: int)
    requires IsSquare(g, n) && IsSquare(h, n) && IsRightAngle(angle) && 0 <= row <= r < n
    requires CompactedFrom(g, h, n, angle, row)
    ensures LineAt(h, n, angle, r) == CompactLine(LineAt(g, n, angle, r)).line
    decreases r - row
  {
    if row < r {
      CompactedFromLine(g, h, n, angle, row + 1, r);
    }
  }

  /** The only grid whose lines are the compacted lines of g is the moved grid. */
  lemma CompactedIsMoved(g: Grid, h: Grid, n: int, angle: int)
    requires IsSquare(g, n) && IsSquare(h, n) && IsRightAngle(angle)
    requires CompactedFrom(g, h, n, angle, 0)
    ensures h == Moved(g, n, angle)
  {
    var m := Moved(g, n, angle);
    MovedLines(g, n, angle);
    forall r | 0 <= r < n
      ensures LineAt(h, n, angle, r) == LineAt(m, n, angle, r)
    {
      CompactedFromLine(g, h, n, angle, 0, r);
    }
    LinesDetermineGrid(h, m, n, angle);
  }

  /** The facts of MovePlan for a grid h known only by its lines. */
  lemma CompactedPlan(g: Grid, h: Grid, n: int, angle: int)
    requires IsSquare(g, n) && IsSquare(h, n) && IsRightAngle(angle)
    requires CompactedFrom(g, h, n, angle, 0)
    ensures (h != g) == ChangedUpTo(g, n, angle, n)
    ensures IsTileGrid(g, n) ==> IsTileGrid(h, n)
    ensures IsPlayingGrid(g, n) && !WonUpTo(g, n, angle, n) ==> IsPlayingGrid(h, n)
    ensures CountLast(h, n, angle, n) < n <==> HasEmpty(h, n)
  {
    CompactedIsMoved(g, h, n, angle);
    MovePlan(g, n, angle, h);
  }

  /** After a move, fewer than n lines end in an occupied slot exactly when the
   *  grid has an empty cell (each line is packed, so a line has an empty slot
   *  exactly when its last slot is empty). */
  lemma CountLastEmpty(g: Grid, n: int, angle: int)
    requires IsSquare(g, n) && IsRightAngle(angle)
    ensures CountLast(Moved(g, n, angle), n, angle, n) < n <==> HasEmpty(Moved(g, n, angle), n)
  {
    var h := Moved(g, n, angle);
    CountLastWitness(h, n, angle, n);
    if CountLast(h, n, angle, n) < n {
      var r :| 0 <= r < n && LineAt(h, n, angle, r)[n - 1] == 0;
      EmptyLastIsEmptyCell(h, n, angle, r);
    }
    if HasEmpty(h, n) {
      var i, j :| 0 <= i < n && 0 <= j < n && h[i][j] == 0;
      EmptyCellEmptiesLast(g, n, angle, i, j);
    }
  }

  lemma EmptyLastIsEmptyCell(h: Grid, n: int, angle: int, r: int)
    requires IsSquare(h, n) && IsRightAngle(angle) && 0 <= r < n
    requires LineAt(h, n, angle, r)[n - 1] == 0
    ensures HasEmpty(h, n)
  {
    var c := RotateCell(n, r, n - 1, angle);
    LineAtSlot(h, n, angle, r, n - 1);
    assert h[c.row][c.column] == 0;
  }

  lemma EmptyCellEmptiesLast(g: Grid, n: int, angle: int, i: int, j: int)
    requires IsSquare(g, n) && IsRightAngle(angle) && 0 <= i < n && 0 <= j < n
    requires Moved(g, n, angle)[i][j] == 0
    ensures var r := Unrotate(n, Cell(i, j), angle).row;
      0 <= r < n && LineAt(Moved(g, n, angle), n, angle, r)[n - 1] == 0
  {
    var h := Moved(g, n, angle);
    var c := Unrotate(n, Cell(i, j), angle);
    CellInLine(h, n, angle, i, j);
    MovedLines(g, n, angle);
    var line := LineAt(h, n, angle, c.row);
    assert line == CompactLine(LineAt(g, n, angle, c.row)).line;
    assert line[c.column] == 0;
    CompactLinePacked(LineAt(g, n, angle, c.row));
    assert Packed(line);
    if c.column < n - 1 {
      assert line[n - 1] == 0;
    }
  }

  lemma {:induction false} TwoEmptyLasts(g: Grid, n: int, angle: int, rows: int)
    requires IsSquare(g, n) && IsRightAngle(angle) && 0 <= rows <= n
    requires CountLast(g, n, angle, rows) <= rows - 2
    ensures exists r1, r2 ::
              0 <= r1 < r2 < rows && LineAt(g, n, angle, r1)[n - 1] == 0 && LineAt(g, n, angle, r2)[n - 1] == 0
    decreases rows
  {
    LineAtSlot(g, n, angle, rows - 1, n - 1);
    if LineAt(g, n, angle, rows - 1)[n - 1] != 0 {
      TwoEmptyLasts(g, n, angle, rows - 1);
      var r1, r2 :| 0 <= r1 < r2 < rows - 1 &&
        LineAt(g, n, angle, r1)[n - 1] == 0 && LineAt(g, n, angle, r2)[n - 1] == 0;
    } else {
      CountLastWitness(g, n, angle, rows - 1);
      var r1 :| 0 <= r1 < rows - 1 && LineAt(g, n, angle, r1)[n - 1] == 0;
      assert LineAt(g, n, angle, r1)[n - 1] == 0 && LineAt(g, n, angle, rows - 1)[n - 1] == 0;
    }
  }

  /** When at least two lines end in an empty slot, filling one cell leaves an
   *  empty cell, so the game cannot be over. */
  lemma SpawnLeavesEmpty(h: Grid, g: Grid, n: int, angle: int)
    requires IsSquare(h, n) && IsRightAngle(angle) && n >= 1
    requires CountLast(h, n, angle, n) <= n - 2
    requires Spawned(h, g, n)
    ensures IsSquare(g, n) && HasEmpty(g, n) && !GameOver(g, n)
  {
    var c :| SpawnAt(h, g, n, c);
    var c1, c2 := TwoEmptyCells(h, n, angle);
    var e := if c1 == c then c2 else c1;
    EmptyCellSurvives(h, g, n, c, e);
  }

  /** Two lines ending in an empty slot give two distinct empty cells. */
  lemma TwoEmptyCells(h: Grid, n: int, angle: int) returns (c1: Cell, c2: Cell)
    requires IsSquare(h, n) && IsRightAngle(angle) && n >= 1
    requires CountLast(h, n, angle, n) <= n - 2
    ensures c1 != c2
    ensures 0 <= c1.row < n && 0 <= c1.column < n && h[c1.row][c1.column] == 0
    ensures 0 <= c2.row < n && 0 <= c2.column < n && h[c2.row][c2.column] == 0
  {
    TwoEmptyLasts(h, n, angle, n);
    var r1, r2 :| 0 <= r1 < r2 < n &&
      LineAt(h, n, angle, r1)[n - 1] == 0 && LineAt(h, n, angle, r2)[n - 1] == 0;
    c1 := RotateCell(n, r1, n - 1, angle);
    c2 := RotateCell(n, r2, n - 1, angle);
    LineAtSlot(h, n, angle, r1, n - 1);
    LineAtSlot(h, n, angle, r2, n - 1);
    if c1 == c2 {
      RotateCellInjective(n, angle, r1, n - 1, r2, n - 1);
    }
  }

  lemma EmptyCellSurvives(h: Grid, g: Grid, n: int, c: Cell, e: Cell)
    requires IsSquare(h, n) && SpawnAt(h, g, n, c)
    requires 0 <= e.row < n && 0 <= e.column < n && e != c && h[e.row][e.column] == 0
    ensures IsSquare(g, n) && HasEmpty(g, n) && !GameOver(g, n)
  {
    assert e.row != c.row || e.column != c.column;
    assert g[e.row][e.column] == 0;
  }

  // ---------------------------------------------------------------------------
  // The effect on the lines of setting cells

  /** Setting the cell of slot k of line `row` sets that slot and no other
   *  slot of any line. */
  lemma PutLine(g: Grid, n: int, angle: int, row: int, k: int, v: int)
    requires IsSquare(g, n) && IsRightAngle(angle) && 0 <= row < n && 0 <= k < n
    ensures var h := Put(g, n, RotateCell(n, row, k, angle), v);
      LineAt(h, n, angle, row) == LineAt(g, n, angle, row)[k := v] &&
      forall r :: 0 <= r < n && r != row ==> LineAt(h, n, angle, r) == LineAt(g, n, angle, r)
  {
    var c := RotateCell(n, row, k, angle);
    var h := Put(g, n, c, v);
    forall r, m | 0 <= r < n && 0 <= m < n
      ensures LineAt(h, n, angle, r)[m] == if r == row && m == k then v else LineAt(g, n, angle, r)[m]
    {
      LineAtSlot(h, n, angle, r, m);
      LineAtSlot(g, n, angle, r, m);
      if RotateCell(n, r, m, angle) == c {
        RotateCellInjective(n, angle, r, m, row, k);
      }
    }
    assert LineAt(h, n, angle, row) == LineAt(g, n, angle, row)[k := v];
    forall r | 0 <= r < n && r != row
      ensures LineAt(h, n, angle, r) == LineAt(g, n, angle, r)
    {
    }
  }

  /** Line `row` of g reads `line`, and every other line of g is as in g0. */
  predicate LineState(g: Grid, g0: Grid, n: int, angle: int, row: int, line: seq<int>) {
    IsSquare(g, n) && IsSquare(g0, n) && IsRightAngle(angle) && 0 <= row < n &&
    LineAt(g, n, angle, row) == line &&
    forall r :: 0 <= r < n && r != row ==> LineAt(g, n, angle, r) == LineAt(g0, n, angle, r)
  }

  lemma LineStateStart(g: Grid, n: int, angle: int, row: int)
    requires IsSquare(g, n) && IsRightAngle(angle) && 0 <= row < n
    ensures LineState(g, g, n, angle, row, LineAt(g, n, angle, row))
  {
  }

  /** Slot k of the tracked line is the cell RotateCell(n, row, k, angle). */
  lemma LineStateCell(g: Grid, g0: Grid, n: int, angle: int, row: int, line: seq<int>, k: int)
    requires LineState(g, g0, n, angle, row, line) && 0 <= k < n
    ensures var c := RotateCell(n, row, k, angle);
      0 <= c.row < n && 0 <= c.column < n && g[c.row][c.column] == line[k]
  {
    LineAtSlot(g, n, angle, row, k);
  }

  /** The grid after moving the tile of slot `from` to slot `to` of one line. */
  function MoveInLine(g: Grid, n: int, angle: int, row: int, from: int, to: int): (h: Grid)
    requires IsSquare(g, n) && IsRightAngle(angle) && 0 <= row < n && 0 <= from < n && 0 <= to < n
    ensures IsSquare(h, n)
  {
    var cf := RotateCell(n, row, from, angle);
    Put(Put(g, n, cf, 0), n, RotateCell(n, row, to, angle), g[cf.row][cf.column])
  }

  /** Moving a tile between two slots of a line empties the first slot, gives
   *  its value to the second, and leaves every other line alone. */
  lemma MoveSlot(g: Grid, n: int, angle: int, row: int, from: int, to: int)
    requires IsSquare(g, n) && IsRightAngle(angle) && 0 <= row < n && 0 <= from < n && 0 <= to < n
    requires from != to
    ensures var l := LineAt(g, n, angle, row);
      var h := MoveInLine(g, n, angle, row, from, to);
      LineAt(h, n, angle, row) == l[from := 0][to := l[from]] &&
      forall r :: 0 <= r < n && r != row ==> LineAt(h, n, angle, r) == LineAt(g, n, angle, r)
  {
    var cf := RotateCell(n, row, from, angle);
    LineAtSlot(g, n, angle, row, from);
    PutLine(g, n, angle, row, from, 0);
    PutLine(Put(g, n, cf, 0), n, angle, row, to, g[cf.row][cf.column]);
  }

  lemma LineStateMove(g: Grid, g0: Grid, n: int, angle: int, row: int, line: seq<int>, from: int, to: int)
    requires LineState(g, g0, n, angle, row, line)
    requires 0 <= from < n && 0 <= to < n && from != to
    ensures LineState(MoveInLine(g, n, angle, row, from, to), g0, n, angle, row, line[from := 0][to := line[from]])
  {
    MoveSlot(g, n, angle, row, from, to);
  }

  /** The grid after merging the tiles of slots a and b into slot `to` with value v. */
  function MergeInLine(g: Grid, n: int, angle: int, row: int, a: int, b: int, to: int, v: int): (h: Grid)
    requires IsSquare(g, n) && IsRightAngle(angle) && 0 <= row < n
    requires 0 <= a < n && 0 <= b < n && 0 <= to < n
    ensures IsSquare(h, n)
  {
    Put(Put(Put(g, n, RotateCell(n, row, a, angle), 0), n, RotateCell(n, row, b, angle), 0),
        n, RotateCell(n, row, to, angle), v)
  }

  /** Merging empties slots a and b, writes v into slot `to`, and leaves every
   *  other line alone. */
  lemma MergeSlots(g: Grid, n: int, angle: int, row: int, a: int, b: int, to: int, v: int)
    requires IsSquare(g, n) && IsRightAngle(angle) && 0 <= row < n
    requires 0 <= a < n && 0 <= b < n && 0 <= to < n
    ensures var l := LineAt(g, n, angle, row);
      var h := MergeInLine(g, n, angle, row, a, b, to, v);
      LineAt(h, n, angle, row) == l[a := 0][b := 0][to := v] &&
      forall r :: 0 <= r < n && r != row ==> LineAt(h, n, angle, r) == LineAt(g, n, angle, r)
  {
    var g1 := Put(g, n, RotateCell(n, row, a, angle), 0);
    var g2 := Put(g1, n, RotateCell(n, row, b, angle), 0);
    PutLine(g, n, angle, row, a, 0);
    PutLine(g1, n, angle, row, b, 0);
    PutLine(g2, n, angle, row, to, v);
  }

  lemma LineStateMerge(g: Grid, g0: Grid, n: int, angle: int, row: int, line: seq<int>, a: int, b: int, to: int, v: int)
    requires LineState(g, g0, n, angle, row, line)
    requires 0 <= a < n && 0 <= b < n && 0 <= to < n
    ensures LineState(MergeInLine(g, n, angle, row, a, b, to, v), g0, n, angle, row, line[a := 0][b := 0][to := v])
  {
    MergeSlots(g, n, angle, row, a, b, to, v);
  }

  // ---------------------------------------------------------------------------
  // The tile sum

  function RowSums(g: Grid): seq<int> {
    seq(|g|, i requires 0 <= i < |g| => Sum(g[i]))
  }

  /** Sum of all cells of the grid. */
  function GridSum(g: Grid): int {
    Sum(RowSums(g))
  }

  function Column(g: Grid, j: int): seq<int>
    requires forall i :: 0 <= i < |g| ==> 0 <= j < |g[i]|
  {
    seq(|g|, i requires 0 <= i < |g| => if 0 <= j < |g[i]| then g[i][j] else 0)
  }

  function ColumnSums(g: Grid, m: nat): seq<int>
    requires forall i :: 0 <= i < |g| ==> |g[i]| == m
  {
    seq(m, j requires 0 <= j < m => Sum(Column(g, j)))
  }

  function Reverse(s: seq<int>): seq<int> {
    seq(|s|, i requires 0 <= i < |s| => s[|s| - 1 - i])
  }

  lemma {:induction false} SumReverse(s: seq<int>)
    ensures Sum(Reverse(s)) == Sum(s)
    decreases |s|
  {
    if s != [] {
      var init := s[..|s| - 1];
      assert Reverse(s) == [s[|s| - 1]] + Reverse(init);
      SumConcat([s[|s| - 1]], Reverse(init));
      SumReverse(init);
      assert s == init + [s[|s| - 1]];
      SumConcat(init, [s[|s| - 1]]);
    }
  }

  lemma {:induction false} SumPointwise(a: seq<int>, b: seq<int>)
    requires |a| == |b|
    ensures Sum(seq(|a|, j requires 0 <= j < |a| => a[j] + b[j])) == Sum(a) + Sum(b)
    decreases |a|
  {
    if a != [] {
      var s := seq(|a|, j requires 0 <= j < |a| => a[j] + b[j]);
      assert s[1..] == seq(|a[1..]|, j requires 0 <= j < |a[1..]| => a[1..][j] + b[1..][j]);
      SumPointwise(a[1..], b[1..]);
    }
  }

  /** Summing a rectangular grid by rows or by columns gives the same total. */
  lemma {:induction false} RowsColumns(g: Grid, m: nat)
    requires forall i :: 0 <= i < |g| ==> |g[i]| == m
    ensures Sum(RowSums(g)) == Sum(ColumnSums(g, m))
    decreases |g|
  {
    if g == [] {
      SumZeros(m);
      assert ColumnSums(g, m) == Zeros(m);
    } else {
      var init := g[..|g| - 1];
      var last := g[|g| - 1];
      RowsColumns(init, m);
      assert RowSums(g) == RowSums(init) + [Sum(last)];
      SumConcat(RowSums(init), [Sum(last)]);
      var a := ColumnSums(init, m);
      forall j | 0 <= j < m
        ensures ColumnSums(g, m)[j] == a[j] + last[j]
      {
        assert Column(g, j) == Column(init, j) + [last[j]];
        SumConcat(Column(init, j), [last[j]]);
      }
      assert ColumnSums(g, m) == seq(|a|, j requires 0 <= j < |a| => a[j] + last[j]);
      SumPointwise(a, last);
    }
  }

  /** The sums of the logical lines of grid g, line 0 first. */
  function LineSums(g: Grid, n: int, angle: int): seq<int>
    requires IsSquare(g, n) && IsRightAngle(angle)
  {
    seq(n, r requires 0 <= r < n => Sum(LineAt(g, n, angle, r)))
  }

  /** Summing the logical lines of any angle gives the grid's total. */
  lemma LinesSum(g: Grid, n: int, angle: int)
    requires IsSquare(g, n) && IsRightAngle(angle)
    ensures Sum(LineSums(g, n, angle)) == GridSum(g)
  {
    if angle == 0 {
      LinesSumLeft(g, n);
    } else if angle == 90 {
      LinesSumUp(g, n);
    } else if angle == 180 {
      LinesSumRight(g, n);
    } else {
      LinesSumDown(g, n);
    }
  }

  lemma LinesSumLeft(g: Grid, n: int)
    requires IsSquare(g, n)
    ensures Sum(LineSums(g, n, 0)) == GridSum(g)
  {
    forall r | 0 <= r < n
      ensures LineAt(g, n, 0, r) == g[r]
    {
      forall k | 0 <= k < n ensures LineAt(g, n, 0, r)[k] == g[r][k] {
      }
    }
    assert LineSums(g, n, 0) == RowSums(g);
  }

  lemma LinesSumRight(g: Grid, n: int)
    requires IsSquare(g, n)
    ensures Sum(LineSums(g, n, 180)) == GridSum(g)
  {
    forall r | 0 <= r < n
      ensures LineSums(g, n, 180)[r] == Reverse(RowSums(g))[r]
    {
      forall k | 0 <= k < n ensures LineAt(g, n, 180, r)[k] == Reverse(g[n - 1 - r])[k] {
      }
      assert LineAt(g, n, 180, r) == Reverse(g[n - 1 - r]);
      SumReverse(g[n - 1 - r]);
    }
    assert LineSums(g, n, 180) == Reverse(RowSums(g));
    SumReverse(RowSums(g));
  }

  lemma LinesSumUp(g: Grid, n: int)
    requires IsSquare(g, n)
    ensures Sum(LineSums(g, n, 90)) == GridSum(g)
  {
    forall r | 0 <= r < n
      ensures LineSums(g, n, 90)[r] == Reverse(ColumnSums(g, n))[r]
    {
      forall k | 0 <= k < n ensures LineAt(g, n, 90, r)[k] == Column(g, n - 1 - r)[k] {
      }
      assert LineAt(g, n, 90, r) == Column(g, n - 1 - r);
    }
    assert LineSums(g, n, 90) == Reverse(ColumnSums(g, n));
    SumReverse(ColumnSums(g, n));
    RowsColumns(g, n);
  }

  lemma LinesSumDown(g: Grid, n: int)
    requires IsSquare(g, n)
    ensures Sum(LineSums(g, n, 270)) == GridSum(g)
  {
    forall r | 0 <= r < n
      ensures LineSums(g, n, 270)[r] == ColumnSums(g, n)[r]
    {
      forall k | 0 <= k < n ensures LineAt(g, n, 270, r)[k] == Reverse(Column(g, r))[k] {
      }
      assert LineAt(g, n, 270, r) == Reverse(Column(g, r));
      SumReverse(Column(g, r));
    }
    assert LineSums(g, n, 270) == ColumnSums(g, n);
    RowsColumns(g, n);
  }

  /** A move keeps the sum of all tile values: each merge turns two v into one 2v. */
  lemma MovedSum(g: Grid, n: int, angle: int)
    requires IsSquare(g, n) && IsRightAngle(angle)
    ensures GridSum(Moved(g, n, angle)) == GridSum(g)
  {
    MovedLines(g, n, angle);
    CompactedLinesSum(g, Moved(g, n, angle), n, angle);
  }

  /** A grid whose every logical line is the compacted line of another grid
   *  has the same total. */
  lemma CompactedLinesSum(g: Grid, h: Grid, n: int, angle: int)
    requires IsSquare(g, n) && IsSquare(h, n) && IsRightAngle(angle)
    requires forall r :: 0 <= r < n ==> LineAt(h, n, angle, r) == CompactLine(LineAt(g, n, angle, r)).line
    ensures GridSum(h) == GridSum(g)
  {
    LinesSum(g, n, angle);
    LinesSum(h, n, angle);
    forall r | 0 <= r < n
      ensures LineSums(h, n, angle)[r] == LineSums(g, n, angle)[r]
    {
      CompactLineSum(LineAt(g, n, angle, r));
    }
    assert LineSums(h, n, angle) == LineSums(g, n, angle);
  }
}
