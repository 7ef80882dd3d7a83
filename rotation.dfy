/** Coordinate rotation of the move engine (MainActivity.rotateCell).
 *
 *  Every move is carried out as one "compact towards slot 0" pass over logical
 *  lines; a logical (row, column) address is mapped to a physical cell by a
 *  rotation keyed on the move's angle. The source obtains the rotation from the
 *  truncated cosine and sine of the angle; for the four angles it uses these are
 *  the integers tabulated by Cos and Sin below. */
module Rotation {

  /** The direction a swipe resolves to. */
  datatype Direction = Left | Up | Right | Down

  /** A physical (row, column) address on the grid. */
  datatype Cell = Cell(row: int, column: int)

  /** The four angles the engine rotates by. */
  predicate IsRightAngle(angle: int) {
    angle == 0 || angle == 90 || angle == 180 || angle == 270
  }

  /** The angle moveTiles selects for each direction. */
  function Angle(d: Direction): (angle: int)
    ensures IsRightAngle(angle)
    ensures d == Left <==> angle == 0
  {
    match d
    case Left => 0
    case Up => 90
    case Right => 180
    case Down => 270
  }

  /** (int) Math.cos(Math.toRadians(angle)) for the four angles. */
  function Cos(angle: int): int
    requires IsRightAngle(angle)
  {
    if angle == 0 then 1 else if angle == 180 then -1 else 0
  }

  /** (int) Math.sin(Math.toRadians(angle)) for the four angles. */
  function Sin(angle: int): int
    requires IsRightAngle(angle)
  {
    if angle == 90 then 1 else if angle == 270 then -1 else 0
  }

  /** The physical cell holding logical slot (row, column) of an n x n grid:
   *  Left is the identity, Up reads columns top-down from the right, Right
   *  reads rows right-to-left from the bottom, Down reads columns bottom-up
   *  from the left. RotateCellFormula shows that this is the cosine/sine
   *  rotation of the source. */
  function RotateCell(n: int, row: int, column: int, angle: int): (c: Cell)
    requires IsRightAngle(angle)
    ensures 0 <= row < n && 0 <= column < n ==> 0 <= c.row < n && 0 <= c.column < n
  {
    if angle == 0 then Cell(row, column)
    else if angle == 90 then Cell(column, n - 1 - row)
    else if angle == 180 then Cell(n - 1 - row, n - 1 - column)
    else Cell(n - 1 - column, row)
  }

  /** rotateCell as written: the identity for angle 0, and otherwise the
   *  rotation by the truncated cosine and sine, shifted by n - 1 on the row
   *  unless the angle is 90 and on the column unless it is 270. */
  lemma RotateCellFormula(n: int, row: int, column: int, angle: int)
    requires IsRightAngle(angle)
    ensures angle == 0 ==> RotateCell(n, row, column, angle) == Cell(row, column)
    ensures angle != 0 ==>
      var offsetRow := if angle == 90 then 0 else n - 1;
      var offsetColumn := if angle == 270 then 0 else n - 1;
      RotateCell(n, row, column, angle) ==
        Cell(offsetRow + column * Sin(angle) + row * Cos(angle),
             offsetColumn + column * Cos(angle) - row * Sin(angle))
  {
    if angle == 90 {
      assert column * Sin(angle) == column && row * Cos(angle) == 0;
    } else if angle == 180 {
      assert column * Sin(angle) == 0 && row * Cos(angle) == -row;
    } else if angle == 270 {
      assert column * Sin(angle) == -column && row * Cos(angle) == 0;
    }
  }

  /** The logical (line, slot) address of a physical cell: the inverse of RotateCell. */
  function Unrotate(n: int, c: Cell, angle: int): (logical: Cell)
    requires IsRightAngle(angle)
    ensures 0 <= c.row < n && 0 <= c.column < n ==> 0 <= logical.row < n && 0 <= logical.column < n
  {
    if angle == 0 then c
    else if angle == 90 then Cell(n - 1 - c.column, c.row)
    else if angle == 180 then Cell(n - 1 - c.row, n - 1 - c.column)
    else Cell(c.column, n - 1 - c.row)
  }

  /** Unrotate undoes RotateCell at one slot. */
  lemma UnrotateRotate(n: int, row: int, column: int, angle: int)
    requires IsRightAngle(angle)
    ensures Unrotate(n, RotateCell(n, row, column, angle), angle) == Cell(row, column)
  {
  }

  /** RotateCell undoes Unrotate at one cell. */
  lemma RotateUnrotate(n: int, c: Cell, angle: int)
    requires IsRightAngle(angle)
    ensures RotateCell(n, Unrotate(n, c, angle).row, Unrotate(n, c, angle).column, angle) == c
  {
  }

  /** For each angle RotateCell is a bijection of the n x n grid onto itself,
   *  with Unrotate as its two-sided inverse. */
  lemma RotationBijection(n: int, angle: int)
    requires IsRightAngle(angle)
    ensures forall row, column :: Unrotate(n, RotateCell(n, row, column, angle), angle) == Cell(row, column)
    ensures forall c: Cell :: RotateCell(n, Unrotate(n, c, angle).row, Unrotate(n, c, angle).column, angle) == c
  {
    forall row, column
      ensures Unrotate(n, RotateCell(n, row, column, angle), angle) == Cell(row, column)
    {
      UnrotateRotate(n, row, column, angle);
    }
    forall c: Cell
      ensures RotateCell(n, Unrotate(n, c, angle).row, Unrotate(n, c, angle).column, angle) == c
    {
      RotateUnrotate(n, c, angle);
    }
  }

  /** Two logical slots of the same grid map to the same physical cell only if
   *  they are the same slot. */
  lemma RotateCellInjective(n: int, angle: int, r1: int, k1: int, r2: int, k2: int)
    requires IsRightAngle(angle)
    requires RotateCell(n, r1, k1, angle) == RotateCell(n, r2, k2, angle)
    ensures r1 == r2 && k1 == k2
  {
    RotationBijection(n, angle);
    assert Unrotate(n, RotateCell(n, r1, k1, angle), angle) == Cell(r1, k1);
  }

  /** Two different slots of one line are two different cells. */
  lemma RotateCellDistinct(n: int, angle: int, row: int, k1: int, k2: int)
    requires IsRightAngle(angle) && k1 != k2
    ensures RotateCell(n, row, k1, angle) != RotateCell(n, row, k2, angle)
  {
    if RotateCell(n, row, k1, angle) == RotateCell(n, row, k2, angle) {
      RotateCellInjective(n, angle, row, k1, row, k2);
    }
  }
}
