/** The game state of MainActivity and the operations that change it: the
 *  move (moveTiles with its helpers moveTile, mergeTiles, isGameOver and
 *  addRandomTile), starting a new game, saving the progress, and choosing a
 *  layout, which resumes the saved game of that layout.
 *
 *  The Tile views of the source are modelled by their values: `tiles` holds
 *  0 where the source holds null and the tile's value elsewhere. The score,
 *  best score and game state of the ViewModel are fields of the game. */
module Engine {
  import opened Rotation
  import opened Compaction
  import opened Board
  import opened LineScan
  import opened Codec
  import opened Persistence

  /** ViewModel.GameState. */
  datatype GameState = NotStarted | Started | Won | Over

  const ScoreIndex: int := 0
  const BestScoreIndex: int := 1
  const TilesValuesIndex: int := 2

  /** The store keys of the three layouts (4x4, 5x5, 6x6), indexed by
   *  layout and then by ScoreIndex, BestScoreIndex, TilesValuesIndex. */
  const GameSaveKeys: seq<seq<string>> := [
    ["Layout4Score", "Layout4BestScore", "Layout4TilesValues"],
    ["Layout5Score", "Layout5BestScore", "Layout5TilesValues"],
    ["Layout6Score", "Layout6BestScore", "Layout6TilesValues"]
  ]

  function Max(x: int, y: int): int {
    if x >= y then x else y
  }

  /** The nine keys are pairwise different, so saving one of them leaves the
   *  others alone. */
  lemma KeysDistinct(k1: int, i1: int, k2: int, i2: int)
    requires 0 <= k1 < 3 && 0 <= i1 < 3 && 0 <= k2 < 3 && 0 <= i2 < 3
    requires k1 != k2 || i1 != i2
    ensures GameSaveKeys[k1][i1] != GameSaveKeys[k2][i2]
  {
    var key1, key2 := GameSaveKeys[k1][i1], GameSaveKeys[k2][i2];
    if i1 == i2 {
      assert key1[6] != key2[6];
    }
  }

  /** The stored grid of a layout of side n loads without error, as no grid
   *  or as a playing grid of that side. */
  predicate HoldsGrid(prefs: Store, key: string, n: int) {
    HoldsString(prefs, key) &&
    match Decode(GetString(prefs, key))
    case Err => false
    case Ok(None) => true
    case Ok(Some(g)) => IsPlayingGrid(g, n)
  }

  /** What this game writes into the store for layout k: ints under the two
   *  score keys and a loadable grid of side k + 4 under the tiles key. */
  predicate LayoutSaved(prefs: Store, k: int)
    requires 0 <= k < 3
  {
    HoldsInt(prefs, GameSaveKeys[k][ScoreIndex]) &&
    HoldsInt(prefs, GameSaveKeys[k][BestScoreIndex]) &&
    HoldsGrid(prefs, GameSaveKeys[k][TilesValuesIndex], k + 4)
  }

  predicate StoreConsistent(prefs: Store) {
    forall k :: 0 <= k < 3 ==> LayoutSaved(prefs, k)
  }

  /** The int stored for layout k under a score key (0 when absent). */
  function SavedInt(prefs: Store, k: int, index: int): int
    requires StoreConsistent(prefs) && 0 <= k < 3 && (index == ScoreIndex || index == BestScoreIndex)
  {
    assert LayoutSaved(prefs, k);
    GetInt(prefs, GameSaveKeys[k][index])
  }

  /** The grid stored for layout k, as loadInt2DData decodes it. */
  function SavedGrid(prefs: Store, k: int): Result<Option<Grid>>
    requires StoreConsistent(prefs) && 0 <= k < 3
  {
    assert LayoutSaved(prefs, k);
    Decode(GetString(prefs, GameSaveKeys[k][TilesValuesIndex]))
  }

  /** What is stored for a layout loads: the scores as ints, the grid as no
   *  grid or as a playing grid of the layout's side. */
  lemma LayoutLoads(prefs: Store, k: int)
    requires StoreConsistent(prefs) && 0 <= k < 3
    ensures HoldsInt(prefs, GameSaveKeys[k][ScoreIndex]) && HoldsInt(prefs, GameSaveKeys[k][BestScoreIndex])
    ensures HoldsString(prefs, GameSaveKeys[k][TilesValuesIndex])
    ensures SavedGrid(prefs, k).Ok?
    ensures SavedGrid(prefs, k).value.Some? ==> IsPlayingGrid(SavedGrid(prefs, k).value.value, k + 4)
  {
    assert LayoutSaved(prefs, k);
  }

  /** Saving an int under a score key keeps every layout loadable. */
  lemma SaveIntConsistent(prefs: Store, k: int, index: int, v: int)
    requires StoreConsistent(prefs) && 0 <= k < 3 && (index == ScoreIndex || index == BestScoreIndex)
    ensures StoreConsistent(prefs[GameSaveKeys[k][index] := IntPref(v)])
  {
    var after := prefs[GameSaveKeys[k][index] := IntPref(v)];
    forall k' | 0 <= k' < 3
      ensures LayoutSaved(after, k')
    {
      KeysDistinct(k, index, k', TilesValuesIndex);
      assert LayoutSaved(prefs, k');
    }
  }

  /** Saving no grid, or a playing grid of the layout's side, under a tiles
   *  key keeps every layout loadable. */
  lemma SaveGridConsistent(prefs: Store, k: int, data: Option<Grid>)
    requires StoreConsistent(prefs) && 0 <= k < 3
    requires data.Some? ==> IsPlayingGrid(data.value, k + 4)
    ensures StoreConsistent(prefs[GameSaveKeys[k][TilesValuesIndex] := StringPref(Encode(data))])
  {
    var key := GameSaveKeys[k][TilesValuesIndex];
    var after := prefs[key := StringPref(Encode(data))];
    if data.Some? {
      PlayingGridEncodable(data.value, k + 4);
      EncodeDecode(data.value);
    }
    assert HoldsGrid(after, key, k + 4);
    forall k' | 0 <= k' < 3
      ensures LayoutSaved(after, k')
    {
      KeysDistinct(k, TilesValuesIndex, k', ScoreIndex);
      KeysDistinct(k, TilesValuesIndex, k', BestScoreIndex);
      if k' != k {
        KeysDistinct(k, TilesValuesIndex, k', TilesValuesIndex);
      }
      assert LayoutSaved(prefs, k');
    }
  }

  /** Tile values below the winning value fit a Java int, so a playing grid
   *  survives the save/load round trip. */
  lemma PlayingGridEncodable(g: Grid, n: int)
    requires IsPlayingGrid(g, n) && n >= 1
    ensures Encodable(g)
  {
    forall i, j | 0 <= i < n && 0 <= j < n
      ensures IsInt32(g[i][j])
    {
      TileNonNegative(g[i][j]);
    }
  }

  lemma TileNonNegative(v: int)
    requires IsTile(v)
    ensures v >= 0
  {
  }

  /** The first k values of row i of an array. */
  function RowOf(t: array2<int>, i: int, k: int): (r: seq<int>)
    reads t
    requires 0 <= i < t.Length0 && 0 <= k <= t.Length1
    ensures |r| == k && forall j :: 0 <= j < k ==> r[j] == t[i, j]
  {
    if k == 0 then [] else RowOf(t, i, k - 1) + [t[i, k - 1]]
  }

  /** The first k rows of a square array. */
  function RowsOf(t: array2<int>, k: int): (g: Grid)
    reads t
    requires t.Length0 == t.Length1 && 0 <= k <= t.Length0
    ensures |g| == k
    ensures forall i :: 0 <= i < k ==> |g[i]| == t.Length1 && forall j :: 0 <= j < t.Length1 ==> g[i][j] == t[i, j]
  {
    if k == 0 then [] else RowsOf(t, k - 1) + [RowOf(t, k - 1, t.Length1)]
  }

  /** The values of a square array as a grid. */
  function GridOf(t: array2<int>): (g: Grid)
    reads t
    requires t.Length0 == t.Length1
    ensures IsSquare(g, t.Length0)
    ensures forall i, j :: 0 <= i < t.Length0 && 0 <= j < t.Length0 ==> g[i][j] == t[i, j]
  {
    RowsOf(t, t.Length0)
  }

  /** The loops of initializeGameLayout that add a tile for every non-zero
   *  saved value to an empty grid: the grid then holds the saved values. */
  method PlaceTiles(t: array2<int>, values: Grid)
    requires t.Length0 == t.Length1 && IsSquare(values, t.Length0)
    requires forall r, c :: 0 <= r < t.Length0 && 0 <= c < t.Length1 ==> t[r, c] == 0
    modifies t
    ensures GridOf(t) == values
  {
    var n := t.Length0;
    for i := 0 to n
      invariant forall r, c :: 0 <= r < n && 0 <= c < n ==> t[r, c] == if r < i then values[r][c] else 0
    {
      for j := 0 to n
        invariant forall r, c :: 0 <= r < n && 0 <= c < n ==>
          t[r, c] == if r < i || (r == i && c < j) then values[r][c] else 0
      {
        if values[i][j] != 0 {
          t[i, j] := values[i][j];
        }
      }
    }
    GridsEqual(GridOf(t), values, n);
  }

  class Game {
    /** tilesCountPerSide: 0 before a layout is chosen, else 4, 5 or 6. */
    var n: int
    /** gameSaveKeyIndex: the layout whose keys the game saves under. */
    var keyIndex: int
    /** The grid: 0 for an empty cell, the tile's value otherwise. */
    var tiles: array2<int>
    var score: int
    var bestScore: int
    var state: GameState
    const save: GameSave

    /** The grid as a value. */
    function Cells(): (g: Grid)
      reads this`n, this`tiles, tiles
      requires tiles.Length0 == n && tiles.Length1 == n
      ensures IsSquare(g, n)
      ensures forall i, j :: 0 <= i < n && 0 <= j < n ==> g[i][j] == tiles[i, j]
    {
      GridOf(tiles)
    }

    /** The invariant of the game: the side is one of the layouts and matches
     *  the save keys and the grid, every cell holds a tile value, a started
     *  game has no winning tile yet, and the store keeps every layout
     *  loadable. */
    ghost predicate Valid()
      reads this, tiles, save
    {
      (n == 0 || 4 <= n <= 6) && 0 <= keyIndex < 3 && (n != 0 ==> keyIndex == n - 4) &&
      tiles.Length0 == n && tiles.Length1 == n &&
      IsTileGrid(Cells(), n) &&
      (n == 0 ==> state == NotStarted) &&
      (state == Started ==> IsPlayingGrid(Cells(), n)) &&
      StoreConsistent(save.prefs)
    }

    /** The state of onCreate: no layout chosen yet, and the ViewModel's
     *  defaults. */
    constructor (store: GameSave)
      requires StoreConsistent(store.prefs)
      ensures Valid()
      ensures n == 0 && keyIndex == 0 && score == 0 && bestScore == 0 && state == NotStarted
      ensures save == store
    {
      n := 0;
      keyIndex := 0;
      tiles := new int[0, 0];
      score := 0;
      bestScore := 0;
      state := NotStarted;
      save := store;
    }

    /** moveTile: the tile at `from` goes to `to`. */
    method MoveTile(from: Cell, to: Cell)
      requires tiles.Length0 == n && tiles.Length1 == n
      requires 0 <= from.row < n && 0 <= from.column < n && 0 <= to.row < n && 0 <= to.column < n
      requires tiles[from.row, from.column] != 0
      modifies tiles
      ensures Cells() == Put(Put(old(Cells()), n, from, 0), n, to, old(tiles[from.row, from.column]))
    {
      var tile := tiles[from.row, from.column];
      tiles[from.row, from.column] := 0;
      tiles[to.row, to.column] := tile;
      GridsEqual(Cells(), Put(Put(old(Cells()), n, from, 0), n, to, tile), n);
    }

    /** mergeTiles: both tiles go to `to`, which then holds `value`. */
    method MergeTiles(from1: Cell, from2: Cell, to: Cell, value: int)
      requires tiles.Length0 == n && tiles.Length1 == n
      requires 0 <= from1.row < n && 0 <= from1.column < n
      requires 0 <= from2.row < n && 0 <= from2.column < n
      requires 0 <= to.row < n && 0 <= to.column < n
      requires from1 != from2 && from2 != to
      requires tiles[from1.row, from1.column] != 0 && tiles[from2.row, from2.column] != 0
      modifies tiles
      ensures Cells() == Put(Put(Put(old(Cells()), n, from1, 0), n, from2, 0), n, to, value)
    {
      MoveTile(from1, to);
      MoveTile(from2, to);
      tiles[to.row, to.column] := value;
      GridsEqual(Cells(), Put(Put(Put(old(Cells()), n, from1, 0), n, from2, 0), n, to, value), n);
    }

    /** The inner b-loop of moveTiles: the first occupied slot after slot a
     *  of logical line `row`, or n when every later slot is empty. */
    method FindSecond(row: int, angle: int, a: int, ghost g0: Grid, ghost line: seq<int>) returns (b: int)
      requires tiles.Length0 == n && tiles.Length1 == n
      requires LineState(Cells(), g0, n, angle, row, line) && 0 <= a < n
      ensures b == NextTile(line, a)
    {
      b := a + 1;
      while b < n
        invariant a < b <= n
        invariant forall k :: a < k < b ==> line[k] == 0
      {
        var cell2 := RotateCell(n, row, b, angle);
        LineStateCell(Cells(), g0, n, angle, row, line, b);
        if tiles[cell2.row, cell2.column] != 0 {
          return;
        }
        b := b + 1;
      }
    }

    /** `if (from != to) moveTile(...)` on logical line `row`: the tile of
     *  slot `from` slides to slot `to`; `slid` tells whether it moved. */
    method SlideTile(row: int, angle: int, from: int, to: int, ghost g0: Grid, ghost line: seq<int>)
      returns (slid: bool)
      requires tiles.Length0 == n && tiles.Length1 == n
      requires LineState(Cells(), g0, n, angle, row, line)
      requires 0 <= from < n && 0 <= to < n && line[from] != 0
      modifies tiles
      ensures slid == (from != to)
      ensures LineState(Cells(), g0, n, angle, row, Slide(line, from, to))
    {
      slid := false;
      if from != to {
        ghost var before := Cells();
        LineStateCell(before, g0, n, angle, row, line, from);
        LineStateMove(before, g0, n, angle, row, line, from, to);
        MoveTile(RotateCell(n, row, from, angle), RotateCell(n, row, to, angle));
        assert Cells() == MoveInLine(before, n, angle, row, from, to);
        slid := true;
      }
    }

    /** The merge branch of moveTiles on logical line `row`: mergeTiles moves
     *  the tiles of slots a and b into slot `to`, which then holds `sum`. */
    method MergePair(row: int, angle: int, a: int, b: int, to: int, sum: int, ghost g0: Grid, ghost line: seq<int>)
      requires tiles.Length0 == n && tiles.Length1 == n
      requires LineState(Cells(), g0, n, angle, row, line)
      requires 0 <= to <= a < b < n && line[a] != 0 && line[b] != 0
      modifies tiles
      ensures LineState(Cells(), g0, n, angle, row, line[a := 0][b := 0][to := sum])
    {
      ghost var before := Cells();
      LineStateCell(before, g0, n, angle, row, line, a);
      LineStateCell(before, g0, n, angle, row, line, b);
      LineStateCell(before, g0, n, angle, row, line, to);
      LineStateMerge(before, g0, n, angle, row, line, a, b, to, sum);
      RotateCellDistinct(n, angle, row, a, b);
      RotateCellDistinct(n, angle, row, b, to);
      MergeTiles(RotateCell(n, row, a, angle), RotateCell(n, row, b, angle), RotateCell(n, row, to, angle), sum);
      assert Cells() == MergeInLine(before, n, angle, row, a, b, to, sum);
    }

    /** The branch of moveTiles for two different neighbouring tiles, at
     *  slots a and b of logical line `row`: the first slides to slot `next`
     *  and the second to `next + 1`, each only if it is not there already;
     *  `moved` tells whether either slid. */
    method PlacePair(row: int, angle: int, a: int, b: int, next: int, ghost g0: Grid, ghost line: seq<int>)
      returns (moved: bool)
      requires tiles.Length0 == n && tiles.Length1 == n
      requires LineState(Cells(), g0, n, angle, row, line)
      requires 0 <= next <= a < b < n && line[a] != 0 && line[b] != 0
      modifies tiles
      ensures LineState(Cells(), g0, n, angle, row, Slide(Slide(line, a, next), b, next + 1))
      ensures moved == (a != next || b != next + 1)
    {
      var slid1 := SlideTile(row, angle, a, next, g0, line);
      ghost var mid := Slide(line, a, next);
      assert mid[b] == line[b];
      var slid2 := SlideTile(row, angle, b, next + 1, g0, mid);
      moved := slid1 || slid2;
    }

    /** One pass of the a-loop of moveTiles over logical line `row`, proved
     *  against ScanStep: the line becomes the pass's line, and the outputs
     *  are the loop's new a (before its increment) and next, whether a tile
     *  moved, whether a merge reached 2048 and whether the loop stops; the
     *  score grows by what the pass earned. */
    method ScanSlot(row: int, angle: int, a: int, next: int,
                    ghost g0: Grid, ghost cur: seq<int>, ghost done: seq<Piece>, ghost lone: bool)
      returns (a': int, next': int, moved: bool, won: bool, last: bool, ghost p: Pass)
      requires tiles.Length0 == n && tiles.Length1 == n && 0 <= next <= a < n
      requires LineState(Cells(), g0, n, angle, row, cur)
      modifies tiles, this`score
      ensures p == ScanStep(cur, done, next, a, lone)
      ensures LineState(Cells(), g0, n, angle, row, p.cur)
      ensures a' == p.a && next' == p.next && moved == p.moved && won == p.won && last == p.last
      ensures score == old(score) + p.gained
    {
      a', next', moved, won, last := a, next, false, false, false;
      p := Pass(cur, done, next, a, lone, false, false, 0, false);
      var cell1 := RotateCell(n, row, a, angle);
      LineStateCell(Cells(), g0, n, angle, row, cur, a);
      if tiles[cell1.row, cell1.column] != 0 {
        var b := FindSecond(row, angle, a, g0, cur);
        if b < n {
          var cell2 := RotateCell(n, row, b, angle);
          LineStateCell(Cells(), g0, n, angle, row, cur, b);
          var tileValue := tiles[cell1.row, cell1.column];
          if tileValue == tiles[cell2.row, cell2.column] {
            tileValue := tileValue + tileValue;
            p := Pass(cur[a := 0][b := 0][next := tileValue], done + [Pair(cur[a])], next + 1, b, lone,
                      true, tileValue >= WinValue, tileValue, false);
            assert p == ScanStep(cur, done, next, a, lone);
            // the score is raised before the tiles move rather than after:
            // nothing reads either in between
            score := tileValue + score;
            MergePair(row, angle, a, b, next, tileValue, g0, cur);
            moved := true;
            a' := b;
            won := tileValue >= WinValue;
          } else {
            p := Pass(Slide(Slide(cur, a, next), b, next + 1), done + [Single(cur[a])], next + 1, next, lone,
                      a != next || b != next + 1, false, 0, false);
            assert p == ScanStep(cur, done, next, a, lone);
            moved := PlacePair(row, angle, a, b, next, g0, cur);
            a' := next;
          }
          next' := next + 1;
        } else if a > 0 {
          // the last tile of the line: slide it and stop
          p := Pass(Slide(cur, a, next), done, next, a, lone, a != next, false, 0, true);
          assert p == ScanStep(cur, done, next, a, lone);
          moved := SlideTile(row, angle, a, next, g0, cur);
          last := true;
        } else {
          p := Pass(cur, done, next, a, true, false, false, 0, false);
        }
      }
    }

    /** One iteration of the a-loop of moveTiles over logical line `row`,
     *  from a state s the loop reaches from l0: the pass at slot a and the
     *  increment of a, ending in the next state t; the outputs are the new
     *  a and next, whether a tile moved, whether a merge reached 2048 and
     *  whether the loop stops, and the iteration makes progress. */
    method ScanIteration(row: int, angle: int, a: int, next: int, ghost g0: Grid, ghost l0: seq<int>, ghost s: Sweep)
      returns (a': int, next': int, moved: bool, won: bool, last: bool, ghost t: Sweep)
      requires tiles.Length0 == n && tiles.Length1 == n && a < n
      requires Reached(l0, s) && !s.last && a == s.a && next == s.next
      requires LineState(Cells(), g0, n, angle, row, s.cur)
      modifies tiles, this`score
      ensures Reached(l0, t) && LineState(Cells(), g0, n, angle, row, t.cur)
      ensures score == old(score) + t.gained - s.gained
      ensures t.moved == (s.moved || moved) && t.won == (s.won || won) && t.last == last
      ensures !last ==> a' == t.a && next' == t.next && next' <= a' <= n && (next < next' || (next' == next && a < a'))
    {
      ghost var k: nat :| After(l0, k) == s;
      AfterBounds(l0, k);
      AdvanceProgress(s);
      ghost var p;
      a', next', moved, won, last, p := ScanSlot(row, angle, a, next, g0, s.cur, s.done, s.lone);
      if !last {
        a' := a' + 1;
      }
      t := After(l0, k + 1);
    }

    /** The a-loop of moveTiles over logical line `row`, which holds l0 when
     *  it starts: the line is compacted in place towards slot 0, the score
     *  grows by the merged values, `lineWon` tells whether a merge reached
     *  2048 and `lineMoved` whether the line changed; no other line changes.
     *  It ends in a state the loop reaches from l0, by `break` or with a
     *  past the line; AfterEnds says what that state holds. */
    method ScanLine(row: int, angle: int, ghost g0: Grid, ghost l0: seq<int>) returns (lineMoved: bool, lineWon: bool, ghost s: Sweep)
      requires tiles.Length0 == n && tiles.Length1 == n
      requires LineState(Cells(), g0, n, angle, row, l0)
      modifies tiles, this`score
      ensures Reached(l0, s) && (s.last || s.a == |l0|)
      ensures LineState(Cells(), g0, n, angle, row, s.cur)
      ensures score == old(score) + s.gained && lineWon == s.won && lineMoved == s.moved
    {
      assert |l0| == n;
      s := Begin(l0);
      assert After(l0, 0) == s;
      lineMoved, lineWon := false, false;
      var next := 0;
      var a := 0;
      while a < n
        invariant Reached(l0, s) && !s.last && a <= n
        invariant a == s.a && next == s.next && lineMoved == s.moved && lineWon == s.won
        invariant LineState(Cells(), g0, n, angle, row, s.cur)
        invariant score == old(score) + s.gained
        decreases n - next, n - a
      {
        var moved, won, last;
        a, next, moved, won, last, s := ScanIteration(row, angle, a, next, g0, l0, s);
        lineMoved, lineWon := lineMoved || moved, lineWon || won;
        if last {
          return;
        }
      }
    }

    /** One pass of the row loop of moveTiles: logical line `row` becomes the
     *  compacted line, the score grows by the merged values, `lineWon` tells
     *  whether a merge reached 2048, and `lineMoved` whether the line
     *  changed; no other line changes. */
    method MoveLine(row: int, angle: int, ghost before: seq<int>) returns (lineMoved: bool, lineWon: bool)
      requires tiles.Length0 == n && tiles.Length1 == n && IsRightAngle(angle) && 0 <= row < n
      requires LineAt(Cells(), n, angle, row) == before
      modifies tiles, this`score
      ensures var compacted := CompactLine(before);
        LineAt(Cells(), n, angle, row) == compacted.line &&
        score == old(score) + compacted.gained &&
        lineWon == compacted.won &&
        lineMoved == (compacted.line != before)
      ensures forall r :: 0 <= r < n && r != row ==> LineAt(Cells(), n, angle, r) == LineAt(old(Cells()), n, angle, r)
    {
      ghost var g0 := Cells();
      LineStateStart(g0, n, angle, row);
      ghost var s;
      lineMoved, lineWon, s := ScanLine(row, angle, g0, before);
      AfterEnds(before, s);
    }

    /** moveTiles: every logical line for the direction's angle is compacted;
     *  a new best score is saved; a move that changes nothing ends there, a
     *  winning move ends the game as won, and otherwise a tile 2 appears in
     *  an empty cell, after which the game is over exactly when GameOver
     *  holds of the grid (once it does, no move can change the grid:
     *  GameOverUnchanged). Outside a started game nothing happens. */
    method MoveTiles(direction: Direction)
      requires Valid()
      modifies this, tiles, save
      ensures Valid()
      ensures n == old(n) && keyIndex == old(keyIndex) && tiles == old(tiles)
      ensures old(state) != Started ==>
        Cells() == old(Cells()) && score == old(score) && bestScore == old(bestScore) &&
        state == old(state) && save.prefs == old(save.prefs)
      ensures old(state) == Started ==>
        var g, angle := old(Cells()), Angle(direction);
        MoveOutcome(g, Moved(g, n, angle), GainUpTo(g, n, angle, n), WonUpTo(g, n, angle, n),
                    old(score), old(bestScore), old(save.prefs))
    {
      if state != Started {
        return;
      }
      ghost var g := Cells();
      var angle := Angle(direction);
      ghost var h := Moved(g, n, angle);
      MovePlan(g, n, angle, h);
      MoveStarted(angle, h);
    }

    /** What moveTiles promises of a started game whose grid g compacts into
     *  grid h, earning `gained` and winning when `won`: the score grows by
     *  the gain and a new best score is saved; a move that changes nothing
     *  ends there, a winning move ends the game as won, and otherwise a tile
     *  2 appears in an empty cell of h, after which the game is over exactly
     *  when GameOver holds of the grid. */
    ghost predicate MoveOutcome(g: Grid, h: Grid, gained: int, won: bool, score0: int, best0: int, prefs0: Store)
      reads this, tiles, save
      requires IsSquare(g, n) && IsSquare(h, n) && tiles.Length0 == n && tiles.Length1 == n && 0 <= keyIndex < 3
    {
      score == score0 + gained &&
      bestScore == Max(best0, score) &&
      save.prefs == (if score > best0
                     then prefs0[GameSaveKeys[keyIndex][BestScoreIndex] := IntPref(score)]
                     else prefs0) &&
      (h == g ==> Cells() == g && state == Started) &&
      (h != g && won ==> Cells() == h && state == Won) &&
      (h != g && !won ==>
        (if HasEmpty(h, n) then Spawned(h, Cells(), n) else Cells() == h) &&
        (state == Started || state == Over) &&
        (state == Over <==> GameOver(Cells(), n)))
    }

    /** moveTiles in a started game, whose grid compacts into h. */
    method MoveStarted(angle: int, ghost h: Grid)
      requires Valid() && state == Started && IsRightAngle(angle) && IsSquare(h, n)
      requires CompactedFrom(Cells(), h, n, angle, 0)
      modifies this, tiles, save
      ensures Valid()
      ensures n == old(n) && keyIndex == old(keyIndex) && tiles == old(tiles)
      ensures var g := old(Cells());
        MoveOutcome(g, h, GainUpTo(g, n, angle, n), WonUpTo(g, n, angle, n),
                    old(score), old(bestScore), old(save.prefs))
    {
      ghost var g, score0 := Cells(), score;
      var moved, won, count := MoveAllLines(angle, h);
      EndMove(angle, moved, won, count, g, h, score0, GainUpTo(g, n, angle, n));
    }

    /** The end of moveTiles once the lines of grid g are compacted into
     *  grid h: the best score is updated, and the outcome of the move is
     *  settled from what the lines reported. */
    method EndMove(angle: int, moved: bool, won: bool, count: int,
                   ghost g: Grid, ghost h: Grid, ghost score0: int, ghost gained: int)
      requires 4 <= n <= 6 && keyIndex == n - 4 && tiles.Length0 == n && tiles.Length1 == n
      requires IsSquare(g, n) && IsSquare(h, n) && Cells() == h && IsRightAngle(angle)
      requires StoreConsistent(save.prefs) && state == Started && score == score0 + gained
      requires IsPlayingGrid(g, n) && CompactedFrom(g, h, n, angle, 0)
      requires moved == ChangedUpTo(g, n, angle, n) && won == WonUpTo(g, n, angle, n)
      requires count == CountLast(h, n, angle, n)
      modifies tiles, this`bestScore, this`state, save
      ensures Valid()
      ensures MoveOutcome(g, h, gained, won, score0, old(bestScore), old(save.prefs))
    {
      CompactedPlan(g, h, n, angle);
      assert IsTileGrid(g, n);
      SettleMove(angle, moved, won, count, g, h, score0, gained);
    }

    /** EndMove once the facts of the move are known: the best score is
     *  updated, and the outcome of the move is settled from what the lines
     *  reported. */
    method SettleMove(angle: int, moved: bool, won: bool, count: int,
                      ghost g: Grid, ghost h: Grid, ghost score0: int, ghost gained: int)
      requires 4 <= n <= 6 && keyIndex == n - 4 && tiles.Length0 == n && tiles.Length1 == n
      requires IsSquare(g, n) && IsSquare(h, n) && Cells() == h && IsTileGrid(h, n)
      requires StoreConsistent(save.prefs) && state == Started && score == score0 + gained
      requires moved == (h != g) && IsPlayingGrid(g, n) && (!won ==> IsPlayingGrid(h, n))
      requires IsRightAngle(angle) && count == CountLast(h, n, angle, n)
      requires count < n <==> HasEmpty(h, n)
      modifies tiles, this`bestScore, this`state, save
      ensures Valid()
      ensures MoveOutcome(g, h, gained, won, score0, old(bestScore), old(save.prefs))
    {
      SaveBestScore();
      FinishMove(angle, moved, won, count);
    }

    /** The best-score update of moveTiles: a score above the best score
     *  becomes the best score and is saved under the layout's key. */
    method SaveBestScore()
      requires 0 <= keyIndex < 3 && StoreConsistent(save.prefs)
      modifies this`bestScore, save
      ensures bestScore == Max(old(bestScore), score)
      ensures save.prefs == (if score > old(bestScore)
                             then old(save.prefs)[GameSaveKeys[keyIndex][BestScoreIndex] := IntPref(score)]
                             else old(save.prefs))
      ensures StoreConsistent(save.prefs)
    {
      if score > bestScore {
        bestScore := score;
        SaveIntConsistent(save.prefs, keyIndex, BestScoreIndex, score);
        save.SaveInt(GameSaveKeys[keyIndex][BestScoreIndex], score);
      }
    }

    /** The end of moveTiles once the lines are compacted: a move that
     *  changed nothing ends there, a winning move ends the game as won, and
     *  any other move goes on to add a tile and test for the end of the
     *  game. */
    method FinishMove(angle: int, moved: bool, won: bool, count: int)
      requires 4 <= n <= 6 && keyIndex == n - 4 && tiles.Length0 == n && tiles.Length1 == n
      requires IsTileGrid(Cells(), n) && StoreConsistent(save.prefs) && state == Started
      requires !moved || !won ==> IsPlayingGrid(Cells(), n)
      requires IsRightAngle(angle) && count == CountLast(Cells(), n, angle, n)
      requires count < n <==> HasEmpty(Cells(), n)
      modifies tiles, this`state
      ensures Valid()
      ensures !moved ==> Cells() == old(Cells()) && state == Started
      ensures moved && won ==> Cells() == old(Cells()) && state == Won
      ensures moved && !won ==>
        (if HasEmpty(old(Cells()), n) then Spawned(old(Cells()), Cells(), n) else Cells() == old(Cells())) &&
        (state == Started || state == Over) &&
        (state == Over <==> GameOver(Cells(), n))
    {
      if !moved {
        return;
      }
      if won {
        state := Won;
        return;
      }
      SpawnAfterMove(angle, count);
    }

    /** The row loop of moveTiles: every logical line is compacted in turn;
     *  `moved`, `won` and the score collect what the lines report, and
     *  `count` is the number of lines whose last slot holds a tile. */
    method MoveAllLines(angle: int, ghost h: Grid) returns (moved: bool, won: bool, count: int)
      requires tiles.Length0 == n && tiles.Length1 == n && IsRightAngle(angle) && IsSquare(h, n)
      requires CompactedFrom(Cells(), h, n, angle, 0)
      modifies tiles, this`score
      ensures var g := old(Cells());
        Cells() == h &&
        score == old(score) + GainUpTo(g, n, angle, n) &&
        moved == ChangedUpTo(g, n, angle, n) &&
        won == WonUpTo(g, n, angle, n) &&
        count == CountLast(h, n, angle, n)
    {
      moved, won := false, false;
      count := 0;
      ghost var g := Cells();
      var row := 0;
      while row < n
        modifies tiles, this`score
        invariant 0 <= row <= n
        invariant MovedUpTo(Cells(), g, h, n, angle, row) && CompactedFrom(g, h, n, angle, row)
        invariant score == old(score) + GainUpTo(g, n, angle, row)
        invariant moved == ChangedUpTo(g, n, angle, row)
        invariant won == WonUpTo(g, n, angle, row)
        invariant count == CountLast(h, n, angle, row)
      {
        ghost var score0 := old(score);
        moved, won, count := MoveRow(row, angle, g, h, score0, moved, won, count);
        row := row + 1;
      }
      MovedAll(Cells(), g, h, n, angle);
    }

    /** One iteration of the row loop of moveTiles: the line is compacted
     *  and `lastTile` tells whether its last slot then holds a tile. */
    method MoveRow(row: int, angle: int, ghost g: Grid, ghost h: Grid, ghost score0: int, moved: bool, won: bool, count: int)
      returns (moved': bool, won': bool, count': int)
      requires tiles.Length0 == n && tiles.Length1 == n && IsRightAngle(angle) && 0 <= row < n
      requires IsSquare(g, n) && IsSquare(h, n) && MovedUpTo(Cells(), g, h, n, angle, row)
      requires CompactedFrom(g, h, n, angle, row)
      requires score == score0 + GainUpTo(g, n, angle, row)
      requires moved == ChangedUpTo(g, n, angle, row) && won == WonUpTo(g, n, angle, row)
      requires count == CountLast(h, n, angle, row)
      modifies tiles, this`score
      ensures MovedUpTo(Cells(), g, h, n, angle, row + 1) && CompactedFrom(g, h, n, angle, row + 1)
      ensures score == score0 + GainUpTo(g, n, angle, row + 1)
      ensures moved' == ChangedUpTo(g, n, angle, row + 1) && won' == WonUpTo(g, n, angle, row + 1)
      ensures count' == CountLast(h, n, angle, row + 1)
    {
      ghost var before := Cells();
      var lineMoved, lineWon := MoveLine(row, angle, LineAt(g, n, angle, row));
      MovedUpToNext(before, Cells(), g, h, n, angle, row);
      UpToNext(g, n, angle, row);
      moved' := moved || lineMoved;
      won' := won || lineWon;
      count' := LastTileCount(row, angle, h, count);
    }

    /** The count of moveTiles after line `row`: one more when the last slot
     *  of the compacted line holds a tile. */
    method LastTileCount(row: int, angle: int, ghost h: Grid, count: int) returns (count': int)
      requires tiles.Length0 == n && tiles.Length1 == n && IsRightAngle(angle) && 0 <= row < n && IsSquare(h, n)
      requires LineAt(Cells(), n, angle, row) == LineAt(h, n, angle, row)
      requires count == CountLast(h, n, angle, row)
      ensures count' == CountLast(h, n, angle, row + 1)
    {
      var cell := RotateCell(n, row, n - 1, angle);
      LineAtSlot(Cells(), n, angle, row, n - 1);
      CountLastNext(h, n, angle, row);
      count' := count;
      if tiles[cell.row, cell.column] != 0 {
        count' := count + 1;
      }
    }

    /** The end of a move that changed the grid without winning: a tile 2
     *  appears in an empty cell, if there is one, and the game is over
     *  exactly when GameOver holds of the grid afterwards. isGameOver is
     *  only consulted when at most one last slot was empty before the new
     *  tile, since otherwise an empty cell is left. */
    method SpawnAfterMove(angle: int, count: int)
      requires tiles.Length0 == n && tiles.Length1 == n && IsRightAngle(angle) && n >= 1
      requires IsPlayingGrid(Cells(), n) && count == CountLast(Cells(), n, angle, n)
      requires count < n <==> HasEmpty(Cells(), n)
      requires state == Started
      modifies tiles, this`state
      ensures var h := old(Cells());
        (if HasEmpty(h, n) then Spawned(h, Cells(), n) else Cells() == h) &&
        IsPlayingGrid(Cells(), n) &&
        (state == Started || state == Over) &&
        (state == Over <==> GameOver(Cells(), n))
    {
      ghost var h := Cells();
      if count < n {
        AddRandomTile();
        assert IsPlayingGrid(Cells(), n) by {
          var c :| SpawnAt(h, Cells(), n, c);
        }
      }
      if count <= n - 2 {
        SpawnLeavesEmpty(h, Cells(), n, angle);
      }
      if count >= n - 1 {
        var over := IsGameOver();
        if over {
          state := Over;
        }
      }
    }

    /** isGameOver: every cell is occupied and no two neighbouring cells, in a
     *  row or in a column, hold the same value. */
    method IsGameOver() returns (over: bool)
      requires tiles.Length0 == n && tiles.Length1 == n
      ensures over == GameOver(Cells(), n)
    {
      for row := 0 to n
        invariant forall i, j :: 0 <= i < row && 0 <= j < n ==> tiles[i, j] != 0
        invariant forall i, j :: 0 <= i < row && 0 <= j < n - 1 ==> tiles[i, j] != tiles[i, j + 1]
      {
        for a := 0 to n
          invariant forall j :: 0 <= j < a ==> tiles[row, j] != 0
          invariant forall j :: 0 <= j < a && j < n - 1 ==> tiles[row, j + 1] == 0 || tiles[row, j] != tiles[row, j + 1]
        {
          if tiles[row, a] == 0 {
            assert Cells()[row][a] == 0;
            return false;
          }
          for b := a + 1 to n
            invariant forall k :: a < k < b ==> tiles[row, k] == 0
          {
            if tiles[row, b] != 0 {
              if tiles[row, a] == tiles[row, b] {
                if b == a + 1 {
                  assert !DiffersRight(Cells(), n, row, a);
                } else {
                  assert Cells()[row][a + 1] == 0;
                }
                return false;
              }
              break;
            }
          }
        }
      }
      for column := 0 to n
        invariant forall i, j :: 0 <= i < n - 1 && 0 <= j < column ==> tiles[i, j] != tiles[i + 1, j]
      {
        for a := 0 to n - 1
          invariant forall i :: 0 <= i < a ==> tiles[i, column] != tiles[i + 1, column]
        {
          if tiles[a, column] == tiles[a + 1, column] {
            assert !DiffersBelow(Cells(), n, a, column);
            return false;
          }
        }
      }
      return true;
    }

    /** addRandomTile: a tile 2 appears in an empty cell. The source draws
     *  cells at random until it meets an empty one; the model chooses any
     *  empty cell. */
    method AddRandomTile()
      requires tiles.Length0 == n && tiles.Length1 == n && HasEmpty(Cells(), n)
      modifies tiles
      ensures Spawned(old(Cells()), Cells(), n)
    {
      ghost var g := Cells();
      var i, j :| 0 <= i < n && 0 <= j < n && tiles[i, j] == 0;
      tiles[i, j] := 2;
      GridsEqual(Cells(), Put(g, n, Cell(i, j), 2), n);
      assert SpawnAt(g, Cells(), n, Cell(i, j));
    }

    /** removeAllTiles: every cell becomes empty. */
    method RemoveAllTiles()
      requires tiles.Length0 == n && tiles.Length1 == n
      modifies tiles
      ensures Cells() == EmptyGrid(n)
    {
      for i := 0 to n
        invariant forall r, c :: 0 <= r < i && 0 <= c < n ==> tiles[r, c] == 0
      {
        for j := 0 to n
          invariant forall r, c :: 0 <= r < i && 0 <= c < n ==> tiles[r, c] == 0
          invariant forall c :: 0 <= c < j ==> tiles[i, c] == 0
        {
          if tiles[i, j] != 0 {
            tiles[i, j] := 0;
          }
        }
      }
      GridsEqual(Cells(), EmptyGrid(n), n);
    }

    /** startNewGame: the grid is emptied, two tiles 2 appear in two different
     *  cells, the score is reset and the game is started. */
    method StartNewGame()
      requires Valid() && n != 0
      modifies this, tiles
      ensures Valid()
      ensures n == old(n) && keyIndex == old(keyIndex) && tiles == old(tiles) && bestScore == old(bestScore)
      ensures score == 0 && state == Started
      ensures exists c1: Cell, c2: Cell ::
        0 <= c1.row < n && 0 <= c1.column < n && 0 <= c2.row < n && 0 <= c2.column < n && c1 != c2 &&
        Cells() == Put(Put(EmptyGrid(n), n, c1, 2), n, c2, 2)
    {
      ghost var c1, c2 := PlaceStartTiles();
      score := 0;
      state := Started;
    }

    /** The grid of startNewGame: removeAllTiles, then addRandomTile twice. */
    method PlaceStartTiles() returns (ghost c1: Cell, ghost c2: Cell)
      requires tiles.Length0 == n && tiles.Length1 == n && n >= 2
      modifies tiles
      ensures 0 <= c1.row < n && 0 <= c1.column < n && 0 <= c2.row < n && 0 <= c2.column < n
      ensures c1 != c2 && Cells() == Put(Put(EmptyGrid(n), n, c1, 2), n, c2, 2)
      ensures IsTileGrid(Cells(), n) && IsPlayingGrid(Cells(), n)
    {
      RemoveAllTiles();
      assert Cells()[0][0] == 0;
      AddRandomTile();
      ghost var mid := Cells();
      SpawnedOnEmpty(n, mid);
      AddRandomTile();
      c1, c2 := SpawnedTwice(n, mid, Cells());
    }

    /** saveGameProgress: under the current layout's keys, the score (0 when
     *  no game is running), the larger of that score and the best score, and
     *  the grid of a running game (no grid otherwise). */
    method SaveGameProgress()
      requires Valid()
      modifies save
      ensures Valid()
      ensures var s := if state == Started then score else 0;
        var keys := GameSaveKeys[keyIndex];
        save.prefs == old(save.prefs)
          [keys[ScoreIndex] := IntPref(s)]
          [keys[BestScoreIndex] := IntPref(Max(s, bestScore))]
          [keys[TilesValuesIndex] := StringPref(Encode(if state == Started then Some(Cells()) else None))]
      ensures var stored := GetString(save.prefs, GameSaveKeys[keyIndex][TilesValuesIndex]);
        Decode(stored) == Ok(if state == Started then Some(Cells()) else None)
    {
      var s := 0;
      var tilesValues: Option<Grid> := None;
      if state == Started {
        s := score;
        var values: Grid := [];
        for i := 0 to n
          invariant values == RowsOf(tiles, i)
        {
          var rowValues: seq<int> := [];
          for j := 0 to n
            invariant rowValues == RowOf(tiles, i, j)
          {
            rowValues := rowValues + [tiles[i, j]];
          }
          values := values + [rowValues];
        }
        tilesValues := Some(values);
      }
      var keys := GameSaveKeys[keyIndex];
      SaveIntConsistent(save.prefs, keyIndex, ScoreIndex, s);
      save.SaveInt(keys[ScoreIndex], s);
      SaveIntConsistent(save.prefs, keyIndex, BestScoreIndex, Max(s, bestScore));
      save.SaveInt(keys[BestScoreIndex], Max(s, bestScore));
      SaveGridConsistent(save.prefs, keyIndex, tilesValues);
      save.SaveGrid(keys[TilesValuesIndex], tilesValues);
      if tilesValues.Some? {
        PlayingGridEncodable(Cells(), n);
        EncodeDecode(Cells());
      }
    }

    /** initializeGameLayout: a new empty grid of the current side, filled
     *  with the tiles saved for this layout when there are some; tells
     *  whether a saved game was found. */
    method InitializeGameLayout() returns (resumed: bool)
      requires 4 <= n <= 6 && keyIndex == n - 4 && StoreConsistent(save.prefs)
      modifies this`tiles
      ensures fresh(tiles) && tiles.Length0 == n && tiles.Length1 == n
      ensures var loaded := SavedGrid(save.prefs, keyIndex);
        loaded.Ok? && resumed == loaded.value.Some? &&
        Cells() == if resumed then loaded.value.value else EmptyGrid(n)
      ensures IsTileGrid(Cells(), n) && (resumed ==> IsPlayingGrid(Cells(), n))
    {
      LayoutLoads(save.prefs, keyIndex);
      var t := new int[n, n]((i, j) => 0);
      var tilesValues := save.LoadGrid(GameSaveKeys[keyIndex][TilesValuesIndex]);
      if tilesValues.value.Some? {
        var values := tilesValues.value.value;
        PlaceTiles(t, values);
      } else {
        GridsEqual(GridOf(t), EmptyGrid(n), n);
      }
      tiles := t;
      resumed := tilesValues.value.Some?;
    }

    /** selectLayoutButton_onClick for a layout of side `count`: choosing the
     *  current layout again changes nothing; otherwise the game switches to
     *  that side, loads its score and best score, and resumes its saved grid
     *  as a started game, or shows an empty grid with the game not started. */
    method SelectLayout(count: int)
      requires Valid() && 4 <= count <= 6
      modifies this
      ensures Valid()
      ensures keyIndex == count - 4 && n == count
      ensures old(n) == count ==>
        tiles == old(tiles) && score == old(score) && bestScore == old(bestScore) && state == old(state)
      ensures old(n) != count ==>
        var loaded := SavedGrid(save.prefs, count - 4);
        fresh(tiles) &&
        score == SavedInt(save.prefs, count - 4, ScoreIndex) &&
        bestScore == SavedInt(save.prefs, count - 4, BestScoreIndex) &&
        loaded.Ok? &&
        (if loaded.value.Some? then state == Started && Cells() == loaded.value.value
         else state == NotStarted && Cells() == EmptyGrid(n))
      ensures save.prefs == old(save.prefs)
    {
      keyIndex := count - 4;
      if n == count {
        return;
      }
      n := count;
      state := NotStarted;
      LoadLayout();
    }

    /** The end of selectLayoutButton_onClick once the side has changed: the
     *  layout's score and best score are loaded, and its saved grid resumes
     *  as a started game, or an empty grid shows with the game not started. */
    method LoadLayout()
      requires 4 <= n <= 6 && keyIndex == n - 4 && StoreConsistent(save.prefs) && state == NotStarted
      modifies this`score, this`bestScore, this`tiles, this`state
      ensures Valid()
      ensures var loaded := SavedGrid(save.prefs, keyIndex);
        fresh(tiles) &&
        score == SavedInt(save.prefs, keyIndex, ScoreIndex) &&
        bestScore == SavedInt(save.prefs, keyIndex, BestScoreIndex) &&
        loaded.Ok? &&
        (if loaded.value.Some? then state == Started && Cells() == loaded.value.value
         else state == NotStarted && Cells() == EmptyGrid(n))
    {
      LayoutLoads(save.prefs, keyIndex);
      var s := save.LoadInt(GameSaveKeys[keyIndex][ScoreIndex]);
      var b := save.LoadInt(GameSaveKeys[keyIndex][BestScoreIndex]);
      score, bestScore := s, b;
      var resumed := InitializeGameLayout();
      if resumed {
        state := Started;
      }
    }
  }
}
