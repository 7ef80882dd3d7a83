/** The line-compaction law of the move engine (MainActivity.moveTiles, one
 *  logical line at a time).
 *
 *  The non-empty tiles of a line are read in scan order; two consecutive equal
 *  tiles merge into one tile of double value, a merged tile is never compared
 *  again, and the resulting tiles are written to slots 0, 1, 2, ... with the
 *  remaining slots emptied. The merge is described here as a partition of the
 *  scanned tiles into pieces (one tile, or two equal tiles), which makes the
 *  "each tile merges at most once" law a plain round trip: flattening the pieces
 *  gives back the scanned tiles. */
module Compaction {

  /** The tile value that wins the game when a merge produces it (or more). */
  const WinValue: int := 2048

  /** Values a grid cell can hold: 0 for an empty cell, else a power of two >= 2. */
  predicate IsPowerOfTwo(v: int)
    decreases if v < 0 then 0 else v
  {
    v == 1 || (v > 1 && v % 2 == 0 && IsPowerOfTwo(v / 2))
  }

  predicate IsTile(v: int) {
    v == 0 || (v >= 2 && IsPowerOfTwo(v))
  }

  /** Doubling a tile value gives a tile value. */
  lemma DoubleIsTile(v: int)
    requires IsTile(v)
    ensures IsTile(v + v)
  {
    if v != 0 {
      assert (v + v) / 2 == v;
    }
  }

  function Sum(s: seq<int>): int {
    if s == [] then 0 else s[0] + Sum(s[1..])
  }

  lemma {:induction false} SumConcat(a: seq<int>, b: seq<int>)
    ensures Sum(a + b) == Sum(a) + Sum(b)
    decreases |a|
  {
    if a == [] {
      assert a + b == b;
    } else {
      assert (a + b)[1..] == a[1..] + b;
      SumConcat(a[1..], b);
    }
  }

  function Zeros(k: nat): (z: seq<int>)
    ensures |z| == k && forall i :: 0 <= i < k ==> z[i] == 0
  {
    seq(k, _ => 0)
  }

  lemma {:induction false} SumZeros(k: nat)
    ensures Sum(Zeros(k)) == 0
  {
    if k > 0 {
      assert Zeros(k)[1..] == Zeros(k - 1);
      SumZeros(k - 1);
    }
  }

  /** The occupied slots of a line, in scan order. */
  function NonZero(s: seq<int>): (r: seq<int>)
    ensures |r| <= |s|
    ensures forall i :: 0 <= i < |r| ==> r[i] != 0
  {
    if s == [] then [] else (if s[0] != 0 then [s[0]] else []) + NonZero(s[1..])
  }

  /** A packed line: once a slot is empty, every later slot is empty. */
  predicate Packed(s: seq<int>) {
    forall i, j :: 0 <= i < j < |s| && s[i] == 0 ==> s[j] == 0
  }

  /** One tile of a compacted line: a tile that slid unmerged, or two equal tiles merged. */
  datatype Piece = Single(v: int) | Pair(v: int)

  function Value(p: Piece): int {
    if p.Pair? then p.v + p.v else p.v
  }

  /** The scanned tiles a piece was made from. */
  function Tiles(p: Piece): seq<int> {
    if p.Pair? then [p.v, p.v] else [p.v]
  }

  /** Greedy left-to-right pairing of the scanned tiles. */
  function Merge(f: seq<int>): (ps: seq<Piece>)
    ensures |ps| <= |f|
  {
    if |f| == 0 then []
    else if |f| == 1 then [Single(f[0])]
    else if f[0] == f[1] then [Pair(f[0])] + Merge(f[2..])
    else [Single(f[0])] + Merge(f[1..])
  }

  /** The partner of Merge: the scanned tiles the pieces consumed, in order. */
  function Flatten(ps: seq<Piece>): seq<int> {
    if ps == [] then [] else Tiles(ps[0]) + Flatten(ps[1..])
  }

  /** The tile values the pieces write into the line. */
  function Values(ps: seq<Piece>): seq<int> {
    seq(|ps|, i requires 0 <= i < |ps| => Value(ps[i]))
  }

  /** The score a move earns from these pieces: the value of every merged tile. */
  function Gain(ps: seq<Piece>): int {
    if ps == [] then 0 else (if ps[0].Pair? then Value(ps[0]) else 0) + Gain(ps[1..])
  }

  predicate PieceWins(p: Piece) {
    p.Pair? && Value(p) >= WinValue
  }

  /** Some merge produced a winning tile. */
  predicate Wins(ps: seq<Piece>) {
    exists i :: 0 <= i < |ps| && PieceWins(ps[i])
  }

  /** The pairing leaves no merge undone: a tile left single is never followed
   *  by a piece that starts with the same value. */
  predicate Greedy(ps: seq<Piece>) {
    forall i :: 0 <= i < |ps| - 1 && ps[i].Single? ==> ps[i].v != ps[i + 1].v
  }

  /** The pieces a line compacts into. */
  function Pieces(l: seq<int>): seq<Piece> {
    Merge(NonZero(l))
  }

  /** The outcome of compacting one line: the new line, the score gained, and
   *  whether a merge reached the winning value. */
  datatype Compacted = Compacted(line: seq<int>, gained: int, won: bool)

  function CompactLine(l: seq<int>): (r: Compacted)
    ensures |r.line| == |l|
  {
    var ps := Pieces(l);
    Compacted(Values(ps) + Zeros(|l| - |ps|), Gain(ps), Wins(ps))
  }

  // ---------------------------------------------------------------------------
  // Laws of the merge

  lemma {:induction false} FlattenHead(ps: seq<Piece>)
    requires ps != []
    ensures Flatten(ps) != [] && Flatten(ps)[0] == ps[0].v
  {
  }

  /** Merge-once law: every scanned tile lands in exactly one piece, in order,
   *  so no tile takes part in two merges of the same move. */
  lemma {:induction false} MergeFlatten(f: seq<int>)
    ensures Flatten(Merge(f)) == f
    decreases |f|
  {
    if |f| == 0 {
    } else if |f| == 1 {
      assert Flatten([Single(f[0])]) == [f[0]] + Flatten([]);
    } else if f[0] == f[1] {
      var ps := [Pair(f[0])] + Merge(f[2..]);
      assert ps[1..] == Merge(f[2..]);
      MergeFlatten(f[2..]);
      assert f == [f[0], f[1]] + f[2..];
    } else {
      var ps := [Single(f[0])] + Merge(f[1..]);
      assert ps[1..] == Merge(f[1..]);
      MergeFlatten(f[1..]);
      assert f == [f[0]] + f[1..];
    }
  }

  lemma {:induction false} MergeHead(f: seq<int>)
    requires f != []
    ensures Merge(f) != [] && Merge(f)[0].v == f[0]
  {
  }

  /** Merge pairs greedily: no two consecutive equal tiles are left unmerged. */
  lemma {:induction false} MergeGreedy(f: seq<int>)
    ensures Greedy(Merge(f))
    decreases |f|
  {
    if |f| >= 2 {
      var rest := if f[0] == f[1] then f[2..] else f[1..];
      var ps := Merge(f);
      assert ps[1..] == Merge(rest);
      MergeGreedy(rest);
      if f[0] != f[1] {
        MergeHead(rest);
      }
      forall i | 0 <= i < |ps| - 1 && ps[i].Single?
        ensures ps[i].v != ps[i + 1].v
      {
        if i > 0 {
          assert ps[i] == Merge(rest)[i - 1] && ps[i + 1] == Merge(rest)[i];
        }
      }
    }
  }

  /** Merge is the only greedy partition of the scanned tiles into pieces:
   *  Flatten and Greedy characterise it completely. */
  lemma {:induction false} MergeUnique(f: seq<int>, ps: seq<Piece>)
    requires Flatten(ps) == f && Greedy(ps)
    ensures ps == Merge(f)
    decreases |ps|
  {
    if ps != [] {
      var rest := ps[1..];
      assert Greedy(rest) by {
        forall i | 0 <= i < |rest| - 1 && rest[i].Single?
          ensures rest[i].v != rest[i + 1].v
        {
          assert rest[i] == ps[i + 1] && rest[i + 1] == ps[i + 2];
        }
      }
      assert f == Tiles(ps[0]) + Flatten(rest);
      if ps[0].Pair? {
        assert f[2..] == Flatten(rest);
        MergeUnique(f[2..], rest);
      } else if rest == [] {
        assert f == [ps[0].v];
      } else {
        FlattenHead(rest);
        assert f[1..] == Flatten(rest);
        assert f[1] == rest[0].v;
        MergeUnique(f[1..], rest);
      }
      assert ps == [ps[0]] + rest;
    }
  }

  /** Merging non-empty tiles produces non-empty tiles. */
  lemma {:induction false} MergeValuesNonZero(f: seq<int>)
    requires forall i :: 0 <= i < |f| ==> f[i] != 0
    ensures forall i :: 0 <= i < |Merge(f)| ==> Value(Merge(f)[i]) != 0
  {
    MergeFlatten(f);
    forall i | 0 <= i < |Merge(f)|
      ensures Value(Merge(f)[i]) != 0
    {
      PieceInFlatten(Merge(f), i);
    }
  }

  /** Each piece's tile value occurs among the tiles it was flattened from. */
  lemma {:induction false} PieceInFlatten(ps: seq<Piece>, i: nat)
    requires i < |ps|
    ensures ps[i].v in Flatten(ps)
    decreases i
  {
    if i > 0 {
      PieceInFlatten(ps[1..], i - 1);
      assert ps[1..][i - 1] == ps[i];
    }
  }

  lemma {:induction false} SumFlatten(ps: seq<Piece>)
    ensures Sum(Flatten(ps)) == Sum(Values(ps))
    decreases |ps|
  {
    if ps != [] {
      SumFlatten(ps[1..]);
      SumConcat(Tiles(ps[0]), Flatten(ps[1..]));
      assert Values(ps) == [Value(ps[0])] + Values(ps[1..]);
      SumConcat([Value(ps[0])], Values(ps[1..]));
    }
  }

  lemma {:induction false} FlattenLength(ps: seq<Piece>)
    ensures |Flatten(ps)| >= |ps|
    ensures |Flatten(ps)| == |ps| ==> forall i :: 0 <= i < |ps| ==> ps[i].Single?
    decreases |ps|
  {
    if ps != [] {
      FlattenLength(ps[1..]);
      forall i | 0 <= i < |ps| && |Flatten(ps)| == |ps|
        ensures ps[i].Single?
      {
        if i > 0 {
          assert ps[i] == ps[1..][i - 1];
        }
      }
    }
  }

  lemma {:induction false} SumNonZero(s: seq<int>)
    ensures Sum(NonZero(s)) == Sum(s)
    decreases |s|
  {
    if s != [] {
      SumNonZero(s[1..]);
      SumConcat(if s[0] != 0 then [s[0]] else [], NonZero(s[1..]));
    }
  }

  lemma {:induction false} NonZeroConcat(a: seq<int>, b: seq<int>)
    ensures NonZero(a + b) == NonZero(a) + NonZero(b)
    decreases |a|
  {
    if a == [] {
      assert a + b == b;
    } else {
      assert (a + b)[1..] == a[1..] + b;
      NonZeroConcat(a[1..], b);
    }
  }

  lemma {:induction false} NonZeroOfNonZero(s: seq<int>)
    requires forall i :: 0 <= i < |s| ==> s[i] != 0
    ensures NonZero(s) == s
    decreases |s|
  {
    if s != [] {
      NonZeroOfNonZero(s[1..]);
    }
  }

  lemma {:induction false} NonZeroOfZeros(s: seq<int>)
    requires forall i :: 0 <= i < |s| ==> s[i] == 0
    ensures NonZero(s) == []
    decreases |s|
  {
    if s != [] {
      NonZeroOfZeros(s[1..]);
    }
  }

  /** A packed line is its occupied slots followed by empty ones. */
  lemma {:induction false} PackedShape(s: seq<int>)
    requires Packed(s)
    ensures s == NonZero(s) + Zeros(|s| - |NonZero(s)|)
    decreases |s|
  {
    if s != [] {
      if s[0] == 0 {
        NonZeroOfZeros(s);
        assert s == Zeros(|s|);
      } else {
        assert Packed(s[1..]);
        PackedShape(s[1..]);
        assert s == [s[0]] + s[1..];
      }
    }
  }

  lemma {:induction false} ValuesSingles(ps: seq<Piece>)
    requires forall i :: 0 <= i < |ps| ==> ps[i].Single?
    ensures Values(ps) == Flatten(ps)
    ensures Gain(ps) == 0 && !Wins(ps)
    decreases |ps|
  {
    if ps != [] {
      ValuesSingles(ps[1..]);
      assert Values(ps) == [Value(ps[0])] + Values(ps[1..]);
    }
  }

  // ---------------------------------------------------------------------------
  // Laws of a compacted line

  /** A compacted line is packed: its tiles, the merge's values in scan order,
   *  fill slots 0..k-1 and the slots from k on are empty. */
  lemma CompactLinePacked(l: seq<int>)
    ensures var r := CompactLine(l).line; var k := |Merge(NonZero(l))|;
      Packed(r) && r[..k] == Values(Merge(NonZero(l))) &&
      (forall i :: 0 <= i < k ==> r[i] != 0) && (forall i :: k <= i < |l| ==> r[i] == 0)
  {
    MergeValuesNonZero(NonZero(l));
  }

  /** Compacting a line keeps the sum of its tile values: two equal tiles v
   *  become one tile 2v. */
  lemma CompactLineSum(l: seq<int>)
    ensures Sum(CompactLine(l).line) == Sum(l)
  {
    var ps := Merge(NonZero(l));
    SumConcat(Values(ps), Zeros(|l| - |ps|));
    SumZeros(|l| - |ps|);
    SumFlatten(ps);
    MergeFlatten(NonZero(l));
    SumNonZero(l);
  }

  /** A line is settled when it is packed and no two neighbouring tiles are equal. */
  predicate Settled(l: seq<int>) {
    Packed(l) && forall i :: 0 <= i < |l| - 1 && l[i] != 0 ==> l[i] != l[i + 1]
  }

  lemma {:induction false} NoEqualNeighbours(f: seq<int>)
    requires forall i :: 0 <= i < |f| - 1 ==> f[i] != f[i + 1]
    ensures forall i :: 0 <= i < |Merge(f)| ==> Merge(f)[i].Single?
    decreases |f|
  {
    if |f| >= 2 {
      NoEqualNeighbours(f[1..]);
      assert Merge(f)[1..] == Merge(f[1..]);
      forall i | 0 <= i < |Merge(f)|
        ensures Merge(f)[i].Single?
      {
        if i > 0 {
          assert Merge(f)[i] == Merge(f[1..])[i - 1];
        }
      }
    }
  }

  lemma {:induction false} SinglesHaveNoEqualNeighbours(f: seq<int>)
    requires forall i :: 0 <= i < |Merge(f)| ==> Merge(f)[i].Single?
    ensures forall i :: 0 <= i < |f| - 1 ==> f[i] != f[i + 1]
  {
    MergeFlatten(f);
    MergeGreedy(f);
    ValuesSingles(Merge(f));
    var ps := Merge(f);
    FlattenLength(ps);
    assert |Values(ps)| == |ps|;
    forall i | 0 <= i < |f| - 1
      ensures f[i] != f[i + 1]
    {
      assert f[i] == Value(ps[i]) == ps[i].v;
      assert f[i + 1] == Value(ps[i + 1]) == ps[i + 1].v;
    }
  }

  /** A move leaves a line as it was exactly when the line is already settled,
   *  and then the line earns nothing and cannot win. */
  lemma CompactLineFixedPoint(l: seq<int>)
    ensures CompactLine(l).line == l <==> Settled(l)
    ensures Settled(l) ==> CompactLine(l).gained == 0 && !CompactLine(l).won
  {
    if Settled(l) {
      SettledIsFixed(l);
    }
    if CompactLine(l).line == l {
      FixedIsSettled(l);
    }
  }

  lemma SettledIsFixed(l: seq<int>)
    requires Settled(l)
    ensures CompactLine(l).line == l && CompactLine(l).gained == 0 && !CompactLine(l).won
  {
    var f := NonZero(l);
    var ps := Merge(f);
    MergeFlatten(f);
    CompactLinePacked(l);
    FlattenLength(ps);
    PackedShape(l);
    forall i | 0 <= i < |f| - 1
      ensures f[i] != f[i + 1]
    {
      assert f[i] == l[i] && f[i + 1] == l[i + 1];
    }
    NoEqualNeighbours(f);
    ValuesSingles(ps);
  }

  lemma FixedIsSettled(l: seq<int>)
    requires CompactLine(l).line == l
    ensures Settled(l)
  {
    var f := NonZero(l);
    var ps := Merge(f);
    MergeFlatten(f);
    CompactLinePacked(l);
    FlattenLength(ps);
    MergeValuesNonZero(f);
    NonZeroConcat(Values(ps), Zeros(|l| - |ps|));
    NonZeroOfNonZero(Values(ps));
    NonZeroOfZeros(Zeros(|l| - |ps|));
    assert Values(ps) == f;
    assert forall i :: 0 <= i < |ps| ==> ps[i].Single?;
    SinglesHaveNoEqualNeighbours(f);
    assert l[..|f|] == f;
    forall i | 0 <= i < |l| - 1 && l[i] != 0
      ensures l[i] != l[i + 1]
    {
      assert i < |f|;
      if i + 1 < |f| {
        assert l[i] == f[i] && l[i + 1] == f[i + 1];
      }
    }
  }

  /** A line in which a merge reaches the winning value is changed by the move. */
  lemma WinChangesLine(l: seq<int>)
    requires CompactLine(l).won
    ensures CompactLine(l).line != l
  {
    CompactLineFixedPoint(l);
  }

  /** Compaction turns tile values into tile values; if no merge reached the
   *  winning value, tiles below it stay below it. */
  lemma CompactLineTiles(l: seq<int>)
    requires forall i :: 0 <= i < |l| ==> IsTile(l[i])
    ensures forall i :: 0 <= i < |l| ==> IsTile(CompactLine(l).line[i])
    ensures (forall i :: 0 <= i < |l| ==> l[i] < WinValue) && !CompactLine(l).won ==>
              forall i :: 0 <= i < |l| ==> CompactLine(l).line[i] < WinValue
  {
    var f := NonZero(l);
    var ps := Merge(f);
    MergeFlatten(f);
    NonZeroIn(l);
    forall i | 0 <= i < |ps|
      ensures IsTile(Value(ps[i]))
      ensures (forall j :: 0 <= j < |l| ==> l[j] < WinValue) && !Wins(ps) ==> Value(ps[i]) < WinValue
    {
      PieceInFlatten(ps, i);
      DoubleIsTile(ps[i].v);
    }
  }

  lemma {:induction false} NonZeroIn(s: seq<int>)
    ensures forall x :: x in NonZero(s) ==> x in s
    decreases |s|
  {
    if s != [] {
      NonZeroIn(s[1..]);
    }
  }

  // ---------------------------------------------------------------------------
  // Worked examples of the merge rule

  lemma ExampleFourEqual()
    ensures CompactLine([2, 2, 2, 2]) == Compacted([4, 4, 0, 0], 8, false)
  {
    var ps := [Pair(2), Pair(2)];
    assert Pieces([2, 2, 2, 2]) == ps by {
      assert NonZero([2, 2, 2, 2]) == [2, 2, 2, 2];
      assert Merge([2, 2]) == [Pair(2)];
    }
    assert Values(ps) + Zeros(2) == [4, 4, 0, 0];
    GainTwo(Pair(2), Pair(2));
    assert !Wins(ps);
  }

  lemma ExampleThreeEqual()
    ensures CompactLine([2, 2, 2, 0]) == Compacted([4, 2, 0, 0], 4, false)
  {
    var ps := [Pair(2), Single(2)];
    assert Pieces([2, 2, 2, 0]) == ps by {
      assert NonZero([2, 2, 2, 0]) == [2, 2, 2];
      assert Merge([2]) == [Single(2)];
    }
    assert Values(ps) + Zeros(2) == [4, 2, 0, 0];
    GainTwo(Pair(2), Single(2));
    assert !Wins(ps);
  }

  lemma ExampleMiddlePair()
    ensures CompactLine([4, 2, 2, 4]) == Compacted([4, 4, 4, 0], 4, false)
  {
    var ps := [Single(4), Pair(2), Single(4)];
    assert Pieces([4, 2, 2, 4]) == ps by {
      assert NonZero([4, 2, 2, 4]) == [4, 2, 2, 4];
      assert Merge([4]) == [Single(4)];
      assert Merge([2, 2, 4]) == [Pair(2), Single(4)];
    }
    assert Values(ps) + Zeros(1) == [4, 4, 4, 0];
    GainTwo(Pair(2), Single(4));
    assert ps[1..] == [Pair(2), Single(4)];
    assert !Wins(ps);
  }

  lemma ExampleGaps()
    ensures CompactLine([0, 2, 0, 2]) == Compacted([4, 0, 0, 0], 4, false)
  {
    var ps := [Pair(2)];
    assert Pieces([0, 2, 0, 2]) == ps by {
      assert NonZero([0, 2, 0, 2]) == [2, 2];
    }
    assert Values(ps) + Zeros(3) == [4, 0, 0, 0];
    assert ps[1..] == [];
    assert !Wins(ps);
  }

  lemma ExampleWin()
    ensures CompactLine([1024, 1024, 0, 0]) == Compacted([2048, 0, 0, 0], 2048, true)
  {
    var ps := [Pair(1024)];
    assert Pieces([1024, 1024, 0, 0]) == ps by {
      assert NonZero([1024, 1024, 0, 0]) == [1024, 1024];
    }
    assert Values(ps) + Zeros(3) == [2048, 0, 0, 0];
    assert ps[1..] == [];
    assert PieceWins(ps[0]);
  }

  /** Compaction is not idempotent: the line a move leaves can merge again
   *  on the next move in the same direction. */
  lemma ExampleMergesAgain()
    ensures CompactLine([2, 2, 2, 2]).line == [4, 4, 0, 0]
    ensures CompactLine([4, 4, 0, 0]).line == [8, 0, 0, 0]
  {
    ExampleFourEqual();
    var ps := [Pair(4)];
    assert Pieces([4, 4, 0, 0]) == ps by {
      assert NonZero([4, 4, 0, 0]) == [4, 4];
    }
    assert Values(ps) + Zeros(3) == [8, 0, 0, 0];
  }

  /** The score of two pieces. */
  lemma GainTwo(p: Piece, q: Piece)
    ensures Gain([p, q]) == (if p.Pair? then Value(p) else 0) + (if q.Pair? then Value(q) else 0)
  {
    assert [p, q][1..] == [q];
    assert [q][1..] == [];
    assert Gain([q]) == (if q.Pair? then Value(q) else 0);
  }

  // ---------------------------------------------------------------------------
  // Helpers for the in-place compaction loop

  /** A measure that every real tile move or merge strictly lowers: the sum of
   *  (slot + 1) over the occupied slots. */
  function Rank(s: seq<int>): int {
    if s == [] then 0 else Rank(s[..|s| - 1]) + (if s[|s| - 1] != 0 then |s| else 0)
  }

  function SlotWeight(v: int, k: int): int {
    if v != 0 then k + 1 else 0
  }

  lemma {:induction false} RankUpdate(s: seq<int>, k: nat, v: int)
    requires k < |s|
    ensures Rank(s[k := v]) + SlotWeight(s[k], k) == Rank(s) + SlotWeight(v, k)
    decreases |s|
  {
    var t := s[k := v];
    if k < |s| - 1 {
      assert t[..|t| - 1] == s[..|s| - 1][k := v];
      RankUpdate(s[..|s| - 1], k, v);
    } else {
      assert t[..|t| - 1] == s[..|s| - 1];
    }
  }

  lemma {:induction false} NonZeroSkip(s: seq<int>, i: nat, j: nat)
    requires i <= j <= |s|
    requires forall k :: i <= k < j ==> s[k] == 0
    ensures NonZero(s[i..]) == NonZero(s[j..])
    decreases j - i
  {
    if i < j {
      assert s[i..][1..] == s[i + 1..];
      NonZeroSkip(s, i + 1, j);
    }
  }

  lemma NonZeroAt(s: seq<int>, i: nat)
    requires i < |s| && s[i] != 0
    ensures NonZero(s[i..]) == [s[i]] + NonZero(s[i + 1..])
  {
    assert s[i..][1..] == s[i + 1..];
  }

  lemma {:induction false} GainAppend(ps: seq<Piece>, p: Piece)
    ensures Gain(ps + [p]) == Gain(ps) + (if p.Pair? then Value(p) else 0)
    decreases |ps|
  {
    if ps == [] {
      assert [p][1..] == [];
    } else {
      assert (ps + [p])[1..] == ps[1..] + [p];
      GainAppend(ps[1..], p);
    }
  }

  lemma WinsAppend(ps: seq<Piece>, p: Piece)
    ensures Wins(ps + [p]) == (Wins(ps) || PieceWins(p))
  {
    var qs := ps + [p];
    if PieceWins(p) {
      assert qs[|ps|] == p;
    }
    if Wins(ps) {
      var i :| 0 <= i < |ps| && PieceWins(ps[i]);
      assert qs[i] == ps[i];
    }
  }

  lemma ValuesAppend(ps: seq<Piece>, p: Piece)
    ensures Values(ps + [p]) == Values(ps) + [Value(p)]
  {
  }
}
