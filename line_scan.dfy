/** The in-place scan of one line by MainActivity.moveTiles, described on the
 *  values of the line.
 *
 *  The loop keeps a write position `next` and a read position `a`. Slots
 *  before `next` hold the tiles already written, which are the values of the
 *  pieces `done`; slots from `next` up to `a` are empty; and the pieces still
 *  to come are exactly the merge of the tiles from `a` on. Each lemma below
 *  is one branch of the loop body and shows that the branch keeps this
 *  description; ScanEnd and ScanLast show that, when the loop stops, the line
 *  is the compacted line. `Rank` falls with every real move, which ties the
 *  `moved` flag to "the line changed". */
module LineScan {
  import opened Compaction

  /** The value of slot `from` moved to slot `to` (moveTile on one line);
   *  nothing happens when the two slots are the same. */
  function Slide(s: seq<int>, from: int, to: int): (r: seq<int>)
    requires 0 <= from < |s| && 0 <= to < |s|
    ensures |r| == |s|
  {
    if from != to then s[from := 0][to := s[from]] else s
  }

  /** The scan state of the loop over one line `l0` (see the module comment).
   *  `lone` is the state after the first slot held the only tile of the line:
   *  the loop then runs on over empty slots without writing anything. */
  predicate Scanning(l0: seq<int>, cur: seq<int>, done: seq<Piece>, next: int, a: int, lone: bool) {
    match lone
    case true =>
      Written(l0, cur, done, next, a) &&
      next == 0 && 1 <= a && cur == l0 && cur[0] != 0 &&
      (forall k :: 1 <= k < |cur| ==> cur[k] == 0) &&
      Pieces(l0) == [Single(cur[0])]
    case false =>
      Written(l0, cur, done, next, a) &&
      (forall k :: next <= k < a ==> cur[k] == 0) &&
      Pieces(l0) == done + Pieces(cur[a..])
  }

  /** The slots before `next` hold the values of the pieces written so far,
   *  and before the first pass the line is untouched. */
  predicate Written(l0: seq<int>, cur: seq<int>, done: seq<Piece>, next: int, a: int) {
    |cur| == |l0| && 0 <= next <= a <= |cur| && |done| == next &&
    cur[..next] == Values(done) &&
    (a == 0 ==> cur == l0)
  }

  /** The loop starts in a scan state. */
  lemma ScanStart(l0: seq<int>)
    ensures Scanning(l0, l0, [], 0, 0, false)
  {
    assert l0[0..] == l0;
    assert l0[..0] == [] == Values([]);
  }

  /** An empty slot is skipped. */
  lemma ScanEmptySlot(l0: seq<int>, cur: seq<int>, done: seq<Piece>, next: int, a: int, lone: bool)
    requires Scanning(l0, cur, done, next, a, lone)
    requires a < |cur| && cur[a] == 0
    ensures Scanning(l0, cur, done, next, a + 1, lone)
  {
    if !lone {
      NonZeroSkip(cur, a, a + 1);
    }
  }

  /** The first slot holds the only tile: nothing moves and the loop goes on. */
  lemma ScanLone(l0: seq<int>, cur: seq<int>)
    requires Scanning(l0, cur, [], 0, 0, false)
    requires |cur| >= 1 && cur[0] != 0
    requires forall k :: 0 < k < |cur| ==> cur[k] == 0
    ensures Scanning(l0, cur, [], 0, 1, true)
  {
    NonZeroAt(cur, 0);
    NonZeroSkip(cur, 1, |cur|);
    assert NonZero(cur[|cur|..]) == [];
    assert NonZero(l0) == [cur[0]];
  }

  /** The tiles from `a` on, when the first two of them sit at `a` and `b`. */
  lemma FirstTwo(cur: seq<int>, a: int, b: int)
    requires 0 <= a < b < |cur| && cur[a] != 0 && cur[b] != 0
    requires forall k :: a < k < b ==> cur[k] == 0
    ensures NonZero(cur[a..]) == [cur[a], cur[b]] + NonZero(cur[b + 1..])
  {
    NonZeroAt(cur, a);
    NonZeroSkip(cur, a + 1, b);
    NonZeroAt(cur, b);
  }

  /** Two equal first tiles make one merged piece. */
  lemma MergeEqualHead(v: int, rest: seq<int>)
    ensures Merge([v, v] + rest) == [Pair(v)] + Merge(rest)
  {
    assert ([v, v] + rest)[2..] == rest;
  }

  /** Two different first tiles make a piece of the first alone. */
  lemma MergeDistinctHead(va: int, vb: int, rest: seq<int>)
    requires va != vb
    ensures Merge([va, vb] + rest) == [Single(va)] + Merge([vb] + rest)
  {
    assert ([va, vb] + rest)[1..] == [vb] + rest;
  }

  /** The tile at `a` and the next tile, at `b`, are equal: both leave their
   *  slots and their sum is written at `next`. */
  lemma ScanMerge(l0: seq<int>, cur: seq<int>, done: seq<Piece>, next: int, a: int, b: int, v: int)
    requires Scanning(l0, cur, done, next, a, false)
    requires a < b < |cur| && cur[a] == v && v != 0 && cur[b] == v
    requires forall k :: a < k < b ==> cur[k] == 0
    ensures Scanning(l0, cur[a := 0][b := 0][next := v + v], done + [Pair(v)], next + 1, b + 1, false)
  {
    var after := cur[a := 0][b := 0][next := v + v];
    MergeStep(l0, cur, done, next, a, b);
    MergeGap(cur, after, next, a, b);
    ValuesAppend(done, Pair(v));
    assert after[..next + 1] == cur[..next] + [v + v];
  }

  lemma MergeStep(l0: seq<int>, cur: seq<int>, done: seq<Piece>, next: int, a: int, b: int)
    requires Scanning(l0, cur, done, next, a, false)
    requires a < b < |cur| && cur[a] != 0 && cur[b] == cur[a]
    requires forall k :: a < k < b ==> cur[k] == 0
    ensures var v := cur[a];
      Pieces(l0) == (done + [Pair(v)]) + Pieces(cur[a := 0][b := 0][next := v + v][b + 1..])
  {
    var v := cur[a];
    FirstTwo(cur, a, b);
    MergeEqualHead(v, NonZero(cur[b + 1..]));
    assert cur[a := 0][b := 0][next := v + v][b + 1..] == cur[b + 1..];
  }

  lemma MergeGap(cur: seq<int>, after: seq<int>, next: int, a: int, b: int)
    requires 0 <= next <= a < b < |cur|
    requires forall k :: next <= k < a ==> cur[k] == 0
    requires forall k :: a < k < b ==> cur[k] == 0
    requires after == cur[a := 0][b := 0][next := cur[a] + cur[a]]
    ensures forall k :: next + 1 <= k < b + 1 ==> after[k] == 0
  {
  }

  lemma MergeRank(cur: seq<int>, next: int, a: int, b: int)
    requires 0 <= next <= a < b < |cur| && cur[b] != 0
    requires next < a ==> cur[next] == 0
    ensures Rank(cur[a := 0][b := 0][next := cur[a] + cur[a]]) < Rank(cur)
  {
    RankUpdate(cur, a, 0);
    RankUpdate(cur[a := 0], b, 0);
    RankUpdate(cur[a := 0][b := 0], next, cur[a] + cur[a]);
  }

  /** The tile at `a` and the next tile, at `b`, differ: the first slides to
   *  `next`, the second to `next + 1`, and the scan resumes at `next + 1`. */
  lemma ScanPair(l0: seq<int>, cur: seq<int>, done: seq<Piece>, next: int, a: int, b: int, v: int)
    requires Scanning(l0, cur, done, next, a, false)
    requires a < b < |cur| && cur[a] == v && v != 0 && cur[b] != 0 && cur[b] != v
    requires forall k :: a < k < b ==> cur[k] == 0
    ensures Scanning(l0, Slide(Slide(cur, a, next), b, next + 1), done + [Single(v)], next + 1, next + 1, false)
  {
    var c2 := Slide(Slide(cur, a, next), b, next + 1);
    SlidePair(cur, next, a, b);
    PairStep(l0, cur, done, next, a, b);
    ValuesAppend(done, Single(v));
    assert c2[..next + 1] == cur[..next] + [v];
  }

  lemma PairStep(l0: seq<int>, cur: seq<int>, done: seq<Piece>, next: int, a: int, b: int)
    requires Scanning(l0, cur, done, next, a, false)
    requires a < b < |cur| && cur[a] != 0 && cur[b] != 0 && cur[b] != cur[a]
    requires forall k :: a < k < b ==> cur[k] == 0
    ensures var c2 := Slide(Slide(cur, a, next), b, next + 1);
      Pieces(l0) == (done + [Single(cur[a])]) + Pieces(c2[next + 1..])
  {
    var va, vb := cur[a], cur[b];
    var c2 := Slide(Slide(cur, a, next), b, next + 1);
    SlidePair(cur, next, a, b);
    FirstTwo(cur, a, b);
    var rest := NonZero(cur[b + 1..]);
    MergeDistinctHead(va, vb, rest);
    PairTail(cur, c2, next, b);
    assert Pieces(l0) == done + ([Single(va)] + Merge([vb] + rest));
  }

  /** After the two slides the tiles from `next + 1` on are the second tile
   *  followed by the tiles after `b`. */
  lemma PairTail(cur: seq<int>, c2: seq<int>, next: int, b: int)
    requires 0 <= next < b < |cur| == |c2|
    requires c2[next + 1] == cur[b] && cur[b] != 0
    requires forall k :: next + 1 < k <= b ==> c2[k] == 0
    requires forall k :: b < k < |cur| ==> c2[k] == cur[k]
    ensures NonZero(c2[next + 1..]) == [cur[b]] + NonZero(cur[b + 1..])
  {
    NonZeroAt(c2, next + 1);
    NonZeroSkip(c2, next + 2, b + 1);
    assert c2[b + 1..] == cur[b + 1..];
  }

  /** A real slide into an empty earlier slot lowers the measure. */
  lemma SlideRank(s: seq<int>, from: int, to: int)
    requires 0 <= to <= from < |s| && s[from] != 0
    requires to < from ==> s[to] == 0
    ensures from != to ==> Rank(Slide(s, from, to)) < Rank(s)
  {
    if from != to {
      RankUpdate(s, from, 0);
      RankUpdate(s[from := 0], to, s[from]);
    }
  }

  /** The slot-by-slot outcome of the two slides of ScanPair. */
  lemma SlidePair(cur: seq<int>, next: int, a: int, b: int)
    requires 0 <= next <= a < b < |cur|
    requires forall k :: next <= k < a ==> cur[k] == 0
    requires forall k :: a < k < b ==> cur[k] == 0
    ensures var c2 := Slide(Slide(cur, a, next), b, next + 1);
      (forall k :: 0 <= k < next ==> c2[k] == cur[k]) &&
      c2[next] == cur[a] && c2[next + 1] == cur[b] &&
      (forall k :: next + 1 < k <= b ==> c2[k] == 0) &&
      (forall k :: b < k < |cur| ==> c2[k] == cur[k])
  {
  }

  /** The tile at `a` is the last tile of the line: it slides to `next` and
   *  the line is then the compacted line. */
  lemma ScanLast(l0: seq<int>, cur: seq<int>, done: seq<Piece>, next: int, a: int)
    requires Scanning(l0, cur, done, next, a, false)
    requires a < |cur| && cur[a] != 0
    requires forall k :: a < k < |cur| ==> cur[k] == 0
    ensures var after := Slide(cur, a, next);
      CompactLine(l0) == Compacted(after, Gain(done), Wins(done)) &&
      (a != next ==> Rank(after) < Rank(cur))
  {
    var va := cur[a];
    var ps := done + [Single(va)];
    LastPieces(l0, cur, done, next, a);
    LastLine(cur, done, next, a);
    GainAppend(done, Single(va));
    WinsAppend(done, Single(va));
    SlideRank(cur, a, next);
  }

  lemma LastPieces(l0: seq<int>, cur: seq<int>, done: seq<Piece>, next: int, a: int)
    requires Scanning(l0, cur, done, next, a, false)
    requires a < |cur| && cur[a] != 0
    requires forall k :: a < k < |cur| ==> cur[k] == 0
    ensures Pieces(l0) == done + [Single(cur[a])]
  {
    NonZeroAt(cur, a);
    NonZeroSkip(cur, a + 1, |cur|);
    assert NonZero(cur[|cur|..]) == [];
    assert NonZero(cur[a..]) == [cur[a]];
  }

  lemma LastLine(cur: seq<int>, done: seq<Piece>, next: int, a: int)
    requires 0 <= next <= a < |cur| && |done| == next && cur[..next] == Values(done)
    requires forall k :: next <= k < a ==> cur[k] == 0
    requires forall k :: a < k < |cur| ==> cur[k] == 0
    ensures Slide(cur, a, next) == Values(done + [Single(cur[a])]) + Zeros(|cur| - (next + 1))
  {
    ValuesAppend(done, Single(cur[a]));
    var after := Slide(cur, a, next);
    var line := Values(done + [Single(cur[a])]) + Zeros(|cur| - (next + 1));
    forall k | 0 <= k < |cur|
      ensures after[k] == line[k]
    {
      if k < next {
        assert cur[k] == cur[..next][k];
      }
    }
  }

  /** The loop reached the end of the line: the line is the compacted line. */
  lemma ScanEnd(l0: seq<int>, cur: seq<int>, done: seq<Piece>, next: int, lone: bool)
    requires Scanning(l0, cur, done, next, |cur|, lone)
    ensures CompactLine(l0) == Compacted(cur, Gain(done), Wins(done))
  {
    if lone {
      var ps := [Single(cur[0])];
      assert Gain(ps) == 0 && Gain(done) == 0;
      assert !PieceWins(ps[0]) && !Wins(ps) && !Wins(done);
      assert cur == Values(ps) + Zeros(|cur| - 1);
    } else {
      assert cur[|cur|..] == [] && NonZero([]) == [] && Merge([]) == [];
      assert Merge(NonZero(l0)) == done;
      var line := Values(done) + Zeros(|cur| - next);
      forall k | 0 <= k < |cur|
        ensures cur[k] == line[k]
      {
        if k < next {
          assert cur[k] == cur[..next][k];
        }
      }
      assert cur == line;
    }
  }
  // ---------------------------------------------------------------------------
  // One pass of the loop body as a function of the scan state

  /** The inner b-loop: the first occupied slot after slot a, or |s| when
   *  every later slot is empty. */
  function NextTile(s: seq<int>, a: int): (b: int)
    requires 0 <= a < |s|
    ensures a < b <= |s|
    ensures forall k :: a < k < b ==> s[k] == 0
    ensures b < |s| ==> s[b] != 0
    decreases |s| - a
  {
    if a + 1 == |s| || s[a + 1] != 0 then a + 1 else NextTile(s, a + 1)
  }

  /** The loop state after one pass of the body: the line, the pieces
   *  written, `next`, `a` before its increment, the lone flag, whether a
   *  tile moved, whether a merge reached the winning value, the score the
   *  pass earned, and whether the pass ends the loop (`break`). */
  datatype Pass = Pass(cur: seq<int>, done: seq<Piece>, next: int, a: int, lone: bool,
                       moved: bool, won: bool, gained: int, last: bool)

  /** The body of the a-loop of moveTiles at slot a, on the values of the
   *  line: an empty slot is skipped; a tile followed by an equal tile is
   *  merged with it into slot `next` and the scan skips past the second; a
   *  tile followed by a different one is slid to `next` and the other to
   *  `next + 1`, and the scan resumes at `next + 1`; a last tile after slot 0
   *  is slid to `next` and the loop stops; a tile in slot 0 with nothing
   *  after it stays, and the loop goes on over the empty slots. */
  function ScanStep(cur: seq<int>, done: seq<Piece>, next: int, a: int, lone: bool): Pass
    requires 0 <= next <= a < |cur|
  {
    if cur[a] == 0 then Pass(cur, done, next, a, lone, false, false, 0, false)
    else
      var b := NextTile(cur, a);
      if b < |cur| then
        if cur[b] == cur[a] then
          var sum := cur[a] + cur[a];
          Pass(cur[a := 0][b := 0][next := sum], done + [Pair(cur[a])], next + 1, b, lone,
               true, sum >= WinValue, sum, false)
        else
          Pass(Slide(Slide(cur, a, next), b, next + 1), done + [Single(cur[a])], next + 1, next, lone,
               a != next || b != next + 1, false, 0, false)
      else if a > 0 then
        Pass(Slide(cur, a, next), done, next, a, lone, a != next, false, 0, true)
      else
        Pass(cur, done, next, a, true, false, false, 0, false)
  }

  /** Pass p from scan state (cur, done, next, a) makes progress, or ends
   *  the loop with the compacted line; the score it earns and its win flag
   *  are those of the pieces it adds, and `moved` holds exactly when the line
   *  changed. */
  predicate PassKeeps(l0: seq<int>, cur: seq<int>, done: seq<Piece>, next: int, a: int, p: Pass) {
    match p
    case Pass(cur', done', next', a', _, moved, won, gained, last) =>
      |cur'| == |cur| &&
      (!last ==> a' < |cur| && (next < next' || (next' == next && a' == a))) &&
      (last ==> CompactLine(l0) == Compacted(cur', Gain(done'), Wins(done'))) &&
      Gain(done') == Gain(done) + gained &&
      Wins(done') == (Wins(done) || won) &&
      (moved ==> Rank(cur') < Rank(cur)) &&
      (!moved ==> cur' == cur)
  }

  /** A pass that does not end the loop leaves a scan state behind. */
  predicate PassScans(l0: seq<int>, p: Pass) {
    match p
    case Pass(cur', done', next', a', lone', _, _, _, last) =>
      !last ==> Scanning(l0, cur', done', next', a' + 1, lone')
  }

  /** Every pass of the loop body keeps the scan state. */
  lemma ScanStepKeeps(l0: seq<int>, cur: seq<int>, done: seq<Piece>, next: int, a: int, lone: bool)
    requires Scanning(l0, cur, done, next, a, lone) && a < |cur|
    ensures PassScans(l0, ScanStep(cur, done, next, a, lone))
    ensures PassKeeps(l0, cur, done, next, a, ScanStep(cur, done, next, a, lone))
  {
    if cur[a] == 0 {
      ScanEmptySlot(l0, cur, done, next, a, lone);
    } else if NextTile(cur, a) < |cur| {
      if cur[NextTile(cur, a)] == cur[a] {
        StepMerge(l0, cur, done, next, a, lone, ScanStep(cur, done, next, a, lone));
      } else {
        StepPair(l0, cur, done, next, a, lone, ScanStep(cur, done, next, a, lone));
      }
    } else if a > 0 {
      ScanLast(l0, cur, done, next, a);
    } else {
      ScanLone(l0, cur);
    }
  }

  lemma StepMerge(l0: seq<int>, cur: seq<int>, done: seq<Piece>, next: int, a: int, lone: bool, p: Pass)
    requires Scanning(l0, cur, done, next, a, lone) && a < |cur| && cur[a] != 0
    requires NextTile(cur, a) < |cur| && cur[NextTile(cur, a)] == cur[a]
    requires p == ScanStep(cur, done, next, a, lone)
    ensures PassScans(l0, p) && PassKeeps(l0, cur, done, next, a, p)
  {
    var v, b := cur[a], NextTile(cur, a);
    assert !lone;
    assert p == Pass(cur[a := 0][b := 0][next := v + v], done + [Pair(v)], next + 1, b, false, true, v + v >= WinValue, v + v, false);
    ScansMerge(l0, cur, done, next, a, lone, b, v, p);
    KeepsMerge(l0, cur, done, next, a, b, v, p);
  }

  lemma ScansMerge(l0: seq<int>, cur: seq<int>, done: seq<Piece>, next: int, a: int, lone: bool, b: int, v: int, p: Pass)
    requires Scanning(l0, cur, done, next, a, lone) && !lone
    requires a < b < |cur| && cur[a] == v && v != 0 && cur[b] == v
    requires forall k :: a < k < b ==> cur[k] == 0
    requires p == Pass(cur[a := 0][b := 0][next := v + v], done + [Pair(v)], next + 1, b, false, true, v + v >= WinValue, v + v, false)
    ensures PassScans(l0, p)
  {
    ScanMerge(l0, cur, done, next, a, b, v);
  }

  lemma KeepsMerge(l0: seq<int>, cur: seq<int>, done: seq<Piece>, next: int, a: int, b: int, v: int, p: Pass)
    requires 0 <= next <= a < b < |cur| == |l0| && cur[a] == v && v != 0 && cur[b] == v
    requires next < a ==> cur[next] == 0
    requires p == Pass(cur[a := 0][b := 0][next := v + v], done + [Pair(v)], next + 1, b, false, true, v + v >= WinValue, v + v, false)
    ensures PassKeeps(l0, cur, done, next, a, p)
  {
    MergeRank(cur, next, a, b);
    GainAppend(done, Pair(v));
    WinsAppend(done, Pair(v));
  }

  lemma StepPair(l0: seq<int>, cur: seq<int>, done: seq<Piece>, next: int, a: int, lone: bool, p: Pass)
    requires Scanning(l0, cur, done, next, a, lone) && a < |cur| && cur[a] != 0
    requires NextTile(cur, a) < |cur| && cur[NextTile(cur, a)] != cur[a]
    requires p == ScanStep(cur, done, next, a, lone)
    ensures PassScans(l0, p) && PassKeeps(l0, cur, done, next, a, p)
  {
    var v, b := cur[a], NextTile(cur, a);
    assert !lone;
    assert p == Pass(Slide(Slide(cur, a, next), b, next + 1), done + [Single(v)], next + 1, next, false,
                     a != next || b != next + 1, false, 0, false);
    KeepsPair(l0, cur, done, next, a, lone, b, v, p);
  }

  lemma KeepsPair(l0: seq<int>, cur: seq<int>, done: seq<Piece>, next: int, a: int, lone: bool, b: int, v: int, p: Pass)
    requires Scanning(l0, cur, done, next, a, lone) && !lone
    requires a < b < |cur| && cur[a] == v && v != 0 && cur[b] != 0 && cur[b] != v
    requires forall k :: a < k < b ==> cur[k] == 0
    requires p == Pass(Slide(Slide(cur, a, next), b, next + 1), done + [Single(v)], next + 1, next, false,
                       a != next || b != next + 1, false, 0, false)
    ensures PassScans(l0, p) && PassKeeps(l0, cur, done, next, a, p)
  {
    ScanPair(l0, cur, done, next, a, b, v);
    PairRank(cur, next, a, b);
    GainAppend(done, Single(v));
    WinsAppend(done, Single(v));
  }

  /** The two slides of ScanPair lower the measure exactly when one of them
   *  moves a tile, and otherwise leave the line as it was. */
  lemma PairRank(cur: seq<int>, next: int, a: int, b: int)
    requires 0 <= next <= a < b < |cur| && cur[a] != 0 && cur[b] != 0
    requires forall k :: next <= k < a ==> cur[k] == 0
    requires forall k :: a < k < b ==> cur[k] == 0
    ensures var c2 := Slide(Slide(cur, a, next), b, next + 1);
      (a != next || b != next + 1 ==> Rank(c2) < Rank(cur)) &&
      (a == next && b == next + 1 ==> c2 == cur)
  {
    var c1 := Slide(cur, a, next);
    var c2 := Slide(c1, b, next + 1);
    SlidePair(cur, next, a, b);
    SlideRank(cur, a, next);
    SlideRank(c1, b, next + 1);
    if a == next {
      assert c1 == cur;
    }
    if b == next + 1 {
      assert c2 == c1;
    }
  }

  // ---------------------------------------------------------------------------
  // The a-loop of moveTiles as a function of the number of passes

  /** The state of the a-loop over line l0 at the top of an iteration: the
   *  scan state, whether some pass moved a tile, whether some merge reached
   *  the winning value, the score earned so far, and whether a pass ended
   *  the loop with `break`. */
  datatype Sweep = Sweep(cur: seq<int>, done: seq<Piece>, next: int, a: int, lone: bool,
                         moved: bool, won: bool, gained: int, last: bool)

  function Begin(l0: seq<int>): Sweep {
    Sweep(l0, [], 0, 0, false, false, false, 0, false)
  }

  /** One iteration: the pass at slot a, then `a++` unless the pass ended
   *  the loop; a loop that has ended stays as it is. */
  function Advance(s: Sweep): Sweep {
    if s.last || !(0 <= s.next <= s.a < |s.cur|) then s
    else
      var p := ScanStep(s.cur, s.done, s.next, s.a, s.lone);
      Sweep(p.cur, p.done, p.next, if p.last then p.a else p.a + 1, p.lone,
            s.moved || p.moved, s.won || p.won, s.gained + p.gained, p.last)
  }

  /** The loop state after k iterations. */
  function After(l0: seq<int>, k: nat): Sweep {
    if k == 0 then Begin(l0) else Advance(After(l0, k - 1))
  }

  /** A state the loop reaches from line l0. */
  ghost predicate Reached(l0: seq<int>, s: Sweep) {
    exists k: nat :: After(l0, k) == s
  }

  /** What every loop state knows: a loop that goes on is in a scan state, a
   *  loop that has ended holds the compacted line, the score and the win are
   *  those of the pieces written, and `moved` tells whether the line changed
   *  (a move lowers the rank, which never rises again). */
  predicate Tracks(l0: seq<int>, s: Sweep) {
    (!s.last ==> Scanning(l0, s.cur, s.done, s.next, s.a, s.lone)) &&
    (s.last ==> CompactLine(l0) == Compacted(s.cur, Gain(s.done), Wins(s.done))) &&
    s.gained == Gain(s.done) && s.won == Wins(s.done) &&
    (!s.moved ==> s.cur == l0) && (s.moved ==> Rank(s.cur) < Rank(l0))
  }

  /** The pass at slot a takes a tracked state to a tracked state. */
  lemma PassTracks(l0: seq<int>, s: Sweep, p: Pass, t: Sweep)
    requires Tracks(l0, s) && !s.last && 0 <= s.next <= s.a < |s.cur|
    requires p == ScanStep(s.cur, s.done, s.next, s.a, s.lone)
    requires t == Sweep(p.cur, p.done, p.next, if p.last then p.a else p.a + 1, p.lone,
                        s.moved || p.moved, s.won || p.won, s.gained + p.gained, p.last)
    ensures Tracks(l0, t)
  {
    ScanStepKeeps(l0, s.cur, s.done, s.next, s.a, s.lone);
    SweepStep(l0, s, p, t);
  }

  /** A pass that keeps the scan state takes a tracked state to a tracked
   *  state. */
  lemma SweepStep(l0: seq<int>, s: Sweep, p: Pass, t: Sweep)
    requires Tracks(l0, s) && !s.last
    requires PassScans(l0, p) && PassKeeps(l0, s.cur, s.done, s.next, s.a, p)
    requires t == Sweep(p.cur, p.done, p.next, if p.last then p.a else p.a + 1, p.lone,
                        s.moved || p.moved, s.won || p.won, s.gained + p.gained, p.last)
    ensures Tracks(l0, t)
  {
  }

  /** Every state the loop reaches is tracked. */
  lemma {:induction false} AfterTracks(l0: seq<int>, k: nat)
    ensures Tracks(l0, After(l0, k))
  {
    if k == 0 {
      BeginTracks(l0);
    } else {
      AfterTracks(l0, k - 1);
      AdvanceKeeps(l0, After(l0, k - 1), After(l0, k));
    }
  }

  /** One more step of the scan keeps the scan's invariant. */
  lemma AdvanceKeeps(l0: seq<int>, s: Sweep, t: Sweep)
    requires Tracks(l0, s) && t == Advance(s)
    ensures Tracks(l0, t)
  {
    if !s.last && 0 <= s.next <= s.a < |s.cur| {
      PassTracks(l0, s, ScanStep(s.cur, s.done, s.next, s.a, s.lone), t);
    } else {
      assert t == s;
    }
  }

  lemma BeginTracks(l0: seq<int>)
    ensures Tracks(l0, After(l0, 0))
  {
    ScanStart(l0);
  }

  /** A loop that goes on keeps its indices within the line. */
  lemma AfterBounds(l0: seq<int>, k: nat)
    ensures var s := After(l0, k);
      !s.last ==> 0 <= s.next <= s.a <= |s.cur| == |l0|
  {
    AfterTracks(l0, k);
  }

  /** An iteration that does not end the loop makes progress: `next` grows,
   *  or stays while `a` grows. */
  lemma AdvanceProgress(s: Sweep)
    requires !s.last && 0 <= s.next <= s.a < |s.cur|
    ensures var t := Advance(s);
      !t.last ==> |t.cur| == |s.cur| && t.next <= t.a <= |s.cur| && (s.next < t.next || (t.next == s.next && s.a < t.a))
  {
  }

  /** When the loop ends, by `break` or by running past the line, it holds
   *  the compacted line with its score and win, and it has moved a tile
   *  exactly when the line changed. */
  lemma AfterEnds(l0: seq<int>, s: Sweep)
    requires Reached(l0, s) && (s.last || s.a == |l0|)
    ensures CompactLine(l0) == Compacted(s.cur, s.gained, s.won) && s.moved == (s.cur != l0)
  {
    var k :| After(l0, k) == s;
    AfterTracks(l0, k);
    if !s.last {
      ScanEnd(l0, s.cur, s.done, s.next, s.lone);
    }
  }
}
