/**
 * The board analysis of the blocks trainer (controller/shooting_stars/blocks.py,
 * `BlocksTrainer`): the placements a piece can be given, where a piece comes
 * to rest when dropped, and the board statistics that describe a placement.
 *
 * A board's first index is the row, counted from the top, and its second the
 * column. A cell holds 0 when empty and the piece type that filled it
 * otherwise. The learning model itself is not part of this module.
 */
module BlocksTrainer {
  import opened Wrappers

  /** One mino of a piece, as an offset (rows, columns) from the piece's position. */
  datatype MinoOffset = MinoOffset(x: int, y: int)

  /** A placement: the piece's column and its rotation. */
  datatype Move = Move(y: int, r: int)

  /** The number of rotations the rotation system defines for every piece. */
  const ROTATIONS: nat := 4

  /** A board of `width` columns, every row that long. */
  predicate IsBoard(board: seq<seq<int>>, width: nat) {
    forall r :: 0 <= r < |board| ==> |board[r]| == width
  }

  /** A piece's shapes, one non-empty list of minos per rotation, as the rotation system supplies them. */
  predicate IsShapes(shapes: seq<seq<MinoOffset>>) {
    |shapes| == ROTATIONS && forall r :: 0 <= r < |shapes| ==> |shapes[r]| > 0
  }

  function MinY(minos: seq<MinoOffset>): (m: int)
    requires |minos| > 0
    ensures forall i :: 0 <= i < |minos| ==> m <= minos[i].y
    ensures exists i :: 0 <= i < |minos| && m == minos[i].y
  {
    if |minos| == 1 then minos[0].y
    else
      var rest := MinY(minos[1..]);
      assert forall i :: 1 <= i < |minos| ==> minos[i] == minos[1..][i - 1];
      if minos[0].y <= rest then minos[0].y else rest
  }

  function MaxY(minos: seq<MinoOffset>): (m: int)
    requires |minos| > 0
    ensures forall i :: 0 <= i < |minos| ==> minos[i].y <= m
    ensures exists i :: 0 <= i < |minos| && m == minos[i].y
  {
    if |minos| == 1 then minos[0].y
    else
      var rest := MaxY(minos[1..]);
      assert forall i :: 1 <= i < |minos| ==> minos[i] == minos[1..][i - 1];
      if minos[0].y >= rest then minos[0].y else rest
  }

  function MinX(minos: seq<MinoOffset>): (m: int)
    requires |minos| > 0
    ensures forall i :: 0 <= i < |minos| ==> m <= minos[i].x
    ensures exists i :: 0 <= i < |minos| && m == minos[i].x
  {
    if |minos| == 1 then minos[0].x
    else
      var rest := MinX(minos[1..]);
      assert forall i :: 1 <= i < |minos| ==> minos[i] == minos[1..][i - 1];
      if minos[0].x <= rest then minos[0].x else rest
  }

  /** Every mino of the shape lands on a column of the board. */
  predicate FitsColumns(minos: seq<MinoOffset>, y: int, width: int) {
    forall i :: 0 <= i < |minos| ==> 0 <= y + minos[i].y < width
  }

  /** The columns rotation r can take, from the leftmost to the rightmost, in that order. */
  function RotationMoves(shapes: seq<seq<MinoOffset>>, width: int, r: nat): seq<Move>
    requires IsShapes(shapes) && r < ROTATIONS
  {
    var lo := 0 - MinY(shapes[r]);
    var hi := (width - 1) - MaxY(shapes[r]);
    seq(if lo <= hi then hi - lo + 1 else 0, k => Move(lo + k, r))
  }

  /** The moves of the first n rotations, rotation by rotation. */
  function MovesUpTo(shapes: seq<seq<MinoOffset>>, width: int, n: nat): seq<Move>
    requires IsShapes(shapes) && n <= ROTATIONS
  {
    if n == 0 then [] else MovesUpTo(shapes, width, n - 1) + RotationMoves(shapes, width, n - 1)
  }

  /** `get_possible_moves`: every rotation, and for each every column that keeps the piece on the board. */
  function PossibleMoves(shapes: seq<seq<MinoOffset>>, width: int): seq<Move>
    requires IsShapes(shapes)
  {
    MovesUpTo(shapes, width, ROTATIONS)
  }

  lemma RotationMovesIff(shapes: seq<seq<MinoOffset>>, width: int, r: nat, m: Move)
    requires IsShapes(shapes) && r < ROTATIONS
    ensures m in RotationMoves(shapes, width, r) <==> m.r == r && FitsColumns(shapes[r], m.y, width)
  {
    var moves := RotationMoves(shapes, width, r);
    var lo := 0 - MinY(shapes[r]);
    var hi := (width - 1) - MaxY(shapes[r]);
    if m.r == r && FitsColumns(shapes[r], m.y, width) {
      var iMin :| 0 <= iMin < |shapes[r]| && MinY(shapes[r]) == shapes[r][iMin].y;
      var iMax :| 0 <= iMax < |shapes[r]| && MaxY(shapes[r]) == shapes[r][iMax].y;
      assert lo <= m.y <= hi;
      assert moves[m.y - lo] == m;
    }
  }

  lemma {:induction false} MovesUpToIff(shapes: seq<seq<MinoOffset>>, width: int, n: nat, m: Move)
    requires IsShapes(shapes) && n <= ROTATIONS
    ensures m in MovesUpTo(shapes, width, n) <==> 0 <= m.r < n && FitsColumns(shapes[m.r], m.y, width)
  {
    if n > 0 {
      MovesUpToIff(shapes, width, n - 1, m);
      RotationMovesIff(shapes, width, n - 1, m);
    }
  }

  /**
   * A move is offered exactly when its rotation is one of the four and every
   * mino of that rotation lands on a column of the board.
   */
  lemma PossibleMovesIff(shapes: seq<seq<MinoOffset>>, width: int, m: Move)
    requires IsShapes(shapes)
    ensures m in PossibleMoves(shapes, width) <==> 0 <= m.r < ROTATIONS && FitsColumns(shapes[m.r], m.y, width)
  {
    MovesUpToIff(shapes, width, ROTATIONS, m);
  }

  /** Rotation first, then column. */
  predicate Before(a: Move, b: Move) {
    a.r < b.r || (a.r == b.r && a.y < b.y)
  }

  lemma {:induction false} MovesUpToOrdered(shapes: seq<seq<MinoOffset>>, width: int, n: nat)
    requires IsShapes(shapes) && n <= ROTATIONS
    ensures forall i :: 0 <= i < |MovesUpTo(shapes, width, n)| ==> MovesUpTo(shapes, width, n)[i].r < n
    ensures forall i, j :: 0 <= i < j < |MovesUpTo(shapes, width, n)| ==>
      Before(MovesUpTo(shapes, width, n)[i], MovesUpTo(shapes, width, n)[j])
  {
    if n > 0 {
      MovesUpToOrdered(shapes, width, n - 1);
      var front := MovesUpTo(shapes, width, n - 1);
      var back := RotationMoves(shapes, width, n - 1);
      assert MovesUpTo(shapes, width, n) == front + back;
      forall i, j | 0 <= i < j < |front + back|
        ensures Before((front + back)[i], (front + back)[j])
      {
        if j < |front| {
        } else if i < |front| {
          assert (front + back)[j] == back[j - |front|];
        } else {
          assert (front + back)[i] == back[i - |front|];
          assert (front + back)[j] == back[j - |front|];
        }
      }
    }
  }

  /** Moves come in strictly increasing (rotation, column) order, so none is offered twice. */
  lemma PossibleMovesDistinct(shapes: seq<seq<MinoOffset>>, width: int)
    requires IsShapes(shapes)
    ensures forall i, j :: 0 <= i < j < |PossibleMoves(shapes, width)| ==>
      Before(PossibleMoves(shapes, width)[i], PossibleMoves(shapes, width)[j])
    ensures forall i, j :: 0 <= i < j < |PossibleMoves(shapes, width)| ==>
      PossibleMoves(shapes, width)[i] != PossibleMoves(shapes, width)[j]
  {
    MovesUpToOrdered(shapes, width, ROTATIONS);
  }

  /** The mino would leave the board through the top or the bottom, or lands on a filled cell. */
  predicate Blocked(board: seq<seq<int>>, width: nat, m: MinoOffset, x: int, y: int)
    requires IsBoard(board, width) && 0 <= y + m.y < width
  {
    !(0 <= x + m.x < |board|) || board[x + m.x][y + m.y] != 0
  }

  /**
   * `overlaps`: the minos are tried in order, the row range first; columns
   * are trusted to be on the board, as they are for every offered move.
   */
  function Overlaps(board: seq<seq<int>>, width: nat, minos: seq<MinoOffset>, x: int, y: int): bool
    requires IsBoard(board, width) && FitsColumns(minos, y, width)
  {
    if |minos| == 0 then false
    else
      var m := minos[0];
      if !(0 <= x + m.x < |board|) then true
      else if board[x + m.x][y + m.y] != 0 then true
      else Overlaps(board, width, minos[1..], x, y)
  }

  /** A position overlaps exactly when one of its minos is blocked. */
  lemma {:induction false} OverlapsIff(board: seq<seq<int>>, width: nat, minos: seq<MinoOffset>, x: int, y: int)
    requires IsBoard(board, width) && FitsColumns(minos, y, width)
    ensures Overlaps(board, width, minos, x, y) <==>
      exists i :: 0 <= i < |minos| && Blocked(board, width, minos[i], x, y)
  {
    if |minos| > 0 {
      OverlapsIff(board, width, minos[1..], x, y);
      if exists i :: 1 <= i < |minos| && Blocked(board, width, minos[i], x, y) {
        var i :| 1 <= i < |minos| && Blocked(board, width, minos[i], x, y);
        assert minos[1..][i - 1] == minos[i];
      }
      if exists i :: 0 <= i < |minos[1..]| && Blocked(board, width, minos[1..][i], x, y) {
        var i :| 0 <= i < |minos[1..]| && Blocked(board, width, minos[1..][i], x, y);
        assert minos[1..][i] == minos[i + 1];
      }
    }
  }

  /** The search of `get_move_features` starts with the piece's top mino on the top row. */
  function StartRow(minos: seq<MinoOffset>): int
    requires |minos| > 0
  {
    0 - MinX(minos)
  }

  /** What the drop search returns: the last row before the first overlapping one. */
  predicate IsDropRow(board: seq<seq<int>>, width: nat, minos: seq<MinoOffset>, y: int, x: int)
    requires IsBoard(board, width) && |minos| > 0 && FitsColumns(minos, y, width)
  {
    StartRow(minos) <= x &&
    (x > StartRow(minos) ==> x < |board|) &&
    (forall p :: StartRow(minos) < p <= x ==> !Overlaps(board, width, minos, p, y)) &&
    (x + 1 < |board| ==> Overlaps(board, width, minos, x + 1, y))
  }

  /** The drop search of `get_move_features`, moving down a row at a time until the next row overlaps. */
  method DropRow(board: seq<seq<int>>, width: nat, minos: seq<MinoOffset>, y: int) returns (x: int)
    requires IsBoard(board, width) && |minos| > 0 && FitsColumns(minos, y, width)
    ensures IsDropRow(board, width, minos, y, x)
  {
    var start := StartRow(minos);
    x := start;
    var possible := start + 1;
    while possible < |board|
      invariant x == possible - 1 && start <= x
      invariant x > start ==> x < |board|
      invariant forall p :: start < p <= x ==> !Overlaps(board, width, minos, p, y)
      decreases |board| - possible
    {
      if Overlaps(board, width, minos, possible, y) {
        return;
      }
      x := possible;
      possible := possible + 1;
    }
  }

  /** Only one row meets the drop conditions, so the search's answer is determined. */
  lemma DropRowUnique(board: seq<seq<int>>, width: nat, minos: seq<MinoOffset>, y: int, x1: int, x2: int)
    requires IsBoard(board, width) && |minos| > 0 && FitsColumns(minos, y, width)
    requires IsDropRow(board, width, minos, y, x1) && IsDropRow(board, width, minos, y, x2)
    ensures x1 == x2
  {
  }

  /** A dropped piece below its start row has every mino on a free cell of the board. */
  lemma DroppedPieceFits(board: seq<seq<int>>, width: nat, minos: seq<MinoOffset>, y: int, x: int)
    requires IsBoard(board, width) && |minos| > 0 && FitsColumns(minos, y, width)
    requires IsDropRow(board, width, minos, y, x) && x > StartRow(minos)
    ensures forall i :: 0 <= i < |minos| ==> 0 <= x + minos[i].x < |board| && board[x + minos[i].x][y + minos[i].y] == 0
  {
    OverlapsIff(board, width, minos, x, y);
  }

  /**
   * The start row itself is never tested: on a board whose top cell is
   * taken, the search stays on the start row and the piece is written over
   * that cell.
   */
  lemma StartRowOverwritten()
    ensures var board := [[1], [1]];
      var minos := [MinoOffset(0, 0)];
      IsDropRow(board, 1, minos, 0, 0) && board[0][0] != 0 &&
      Place(board, 1, minos, 0, 0, 5)[0][0] == 5
  {
    var board := [[1], [1]];
    var minos := [MinoOffset(0, 0)];
    assert Overlaps(board, 1, minos, 1, 0);
    assert minos[..0] == [];
  }

  // ---- Board statistics ----

  predicate Filled(board: seq<seq<int>>, width: nat, r: int, c: int)
    requires IsBoard(board, width) && 0 <= r < |board| && 0 <= c < width
  {
    board[r][c] > 0
  }

  /** The first filled row of column c at or below row r, or the row count when there is none. */
  function TopFrom(board: seq<seq<int>>, width: nat, c: int, r: nat): (t: nat)
    requires IsBoard(board, width) && 0 <= c < width && r <= |board|
    ensures r <= t <= |board|
    ensures t < |board| ==> Filled(board, width, t, c)
    ensures forall k :: r <= k < t ==> !Filled(board, width, k, c)
    decreases |board| - r
  {
    if r == |board| then r
    else if Filled(board, width, r, c) then r
    else TopFrom(board, width, c, r + 1)
  }

  /** The highest filled row of column c, or the row count for an empty column. */
  function Top(board: seq<seq<int>>, width: nat, c: int): nat
    requires IsBoard(board, width) && 0 <= c < width
  {
    TopFrom(board, width, c, 0)
  }

  /** Rows from the highest filled cell to the bottom; 0 for an empty column. */
  function ColumnHeight(board: seq<seq<int>>, width: nat, c: int): nat
    requires IsBoard(board, width) && 0 <= c < width
  {
    |board| - Top(board, width, c)
  }

  /** Unfilled cells of column c in rows [lo, hi). */
  function Gaps(board: seq<seq<int>>, width: nat, c: int, lo: nat, hi: nat): nat
    requires IsBoard(board, width) && 0 <= c < width && lo <= hi <= |board|
    decreases hi - lo
  {
    if hi == lo then 0
    else Gaps(board, width, c, lo, hi - 1) + if Filled(board, width, hi - 1, c) then 0 else 1
  }

  /** Unfilled cells at or below column c's highest filled cell. */
  function ColumnHoles(board: seq<seq<int>>, width: nat, c: int): nat
    requires IsBoard(board, width) && 0 <= c < width
  {
    Gaps(board, width, c, Top(board, width, c), |board|)
  }

  /** The tallest of the first n columns. */
  function MaxHeight(board: seq<seq<int>>, width: nat, n: nat): nat
    requires IsBoard(board, width) && n <= width
  {
    if n == 0 then 0 else Max(MaxHeight(board, width, n - 1), ColumnHeight(board, width, n - 1))
  }

  /** The row of the highest filled cell of the first n columns; the row count when they are all empty. */
  function HighestRow(board: seq<seq<int>>, width: nat, n: nat): int
    requires IsBoard(board, width) && n <= width
  {
    |board| - MaxHeight(board, width, n)
  }

  /** The holes of the first n columns, added up. */
  function HoleCount(board: seq<seq<int>>, width: nat, n: nat): nat
    requires IsBoard(board, width) && n <= width
  {
    if n == 0 then 0 else HoleCount(board, width, n - 1) + ColumnHoles(board, width, n - 1)
  }

  /**
   * `get_board_stats`: column by column, empty columns are skipped; otherwise
   * the height from the highest filled cell raises the maximum, and the
   * unfilled cells from there down are counted as holes.
   */
  method BoardStats(board: seq<seq<int>>, width: nat) returns (maxHeight: nat, holeCount: nat)
    requires IsBoard(board, width)
    ensures maxHeight == MaxHeight(board, width, width)
    ensures holeCount == HoleCount(board, width, width)
  {
    maxHeight, holeCount := 0, 0;
    var c := 0;
    while c < width
      invariant 0 <= c <= width
      invariant maxHeight == MaxHeight(board, width, c)
      invariant holeCount == HoleCount(board, width, c)
    {
      var top := 0;
      while top < |board| && !(board[top][c] > 0)
        invariant 0 <= top <= |board|
        invariant TopFrom(board, width, c, top) == Top(board, width, c)
      {
        top := top + 1;
      }
      if top == |board| {
        c := c + 1;
        continue;
      }
      var height := |board| - top;
      if height > maxHeight {
        maxHeight := height;
      }
      var r := top;
      var holes := 0;
      while r < |board|
        invariant top <= r <= |board|
        invariant holes == Gaps(board, width, c, top, r)
      {
        if !(board[r][c] > 0) {
          holes := holes + 1;
        }
        r := r + 1;
      }
      holeCount := holeCount + holes;
      c := c + 1;
    }
  }

  /**
   * Over the first n columns, the maximum height is the height of the highest
   * filled cell: it never exceeds the row count, reaches at least the height
   * of every filled cell, and, unless it is 0, is the height of a filled cell.
   */
  lemma {:induction false} MaxHeightBounds(board: seq<seq<int>>, width: nat, n: nat)
    requires IsBoard(board, width) && n <= width
    ensures MaxHeight(board, width, n) <= |board|
    ensures forall r, c :: 0 <= r < |board| && 0 <= c < n && Filled(board, width, r, c) ==>
      MaxHeight(board, width, n) >= |board| - r
    ensures MaxHeight(board, width, n) > 0 ==>
      exists c :: 0 <= c < n && Filled(board, width, HighestRow(board, width, n), c)
  {
    if n > 0 {
      MaxHeightBounds(board, width, n - 1);
      var m := MaxHeight(board, width, n);
      if m > 0 {
        if m == ColumnHeight(board, width, n - 1) {
          var t := TopFrom(board, width, n - 1, 0);
          assert t == Top(board, width, n - 1) && t < |board|;
          assert HighestRow(board, width, n) == t && Filled(board, width, t, n - 1);
        } else {
          assert m == MaxHeight(board, width, n - 1);
          var c :| 0 <= c < n - 1 && Filled(board, width, HighestRow(board, width, n - 1), c);
          assert Filled(board, width, HighestRow(board, width, n), c);
        }
      }
    }
  }

  lemma {:induction false} EmptyStats(board: seq<seq<int>>, width: nat, n: nat)
    requires IsBoard(board, width) && n <= width
    requires forall r, c :: 0 <= r < |board| && 0 <= c < width ==> board[r][c] == 0
    ensures MaxHeight(board, width, n) == 0 && HoleCount(board, width, n) == 0
  {
    if n > 0 {
      EmptyStats(board, width, n - 1);
      assert Top(board, width, n - 1) == |board|;
    }
  }

  /** An empty board has height 0 and no holes. */
  lemma EmptyBoardStats(board: seq<seq<int>>, width: nat)
    requires IsBoard(board, width)
    requires forall r, c :: 0 <= r < |board| && 0 <= c < width ==> board[r][c] == 0
    ensures MaxHeight(board, width, width) == 0 && HoleCount(board, width, width) == 0
  {
    EmptyStats(board, width, width);
  }

  // ---- Move features ----

  /** The board with the given minos, moved to (x, y), set to the piece type. */
  function Place(board: seq<seq<int>>, width: nat, minos: seq<MinoOffset>, x: int, y: int, piece: int): (b: seq<seq<int>>)
    requires IsBoard(board, width)
    requires forall i :: 0 <= i < |minos| ==> 0 <= x + minos[i].x < |board| && 0 <= y + minos[i].y < width
    ensures |b| == |board| && IsBoard(b, width)
  {
    if |minos| == 0 then board
    else
      var before := Place(board, width, minos[..|minos| - 1], x, y, piece);
      var m := minos[|minos| - 1];
      before[x + m.x := before[x + m.x][y + m.y := piece]]
  }

  /** Some mino of the placed piece covers cell (r, c). */
  predicate Covers(minos: seq<MinoOffset>, x: int, y: int, r: int, c: int) {
    exists i :: 0 <= i < |minos| && x + minos[i].x == r && y + minos[i].y == c
  }

  /** Placing a piece sets exactly the cells its minos cover, and leaves every other cell as it was. */
  lemma {:induction false} PlaceCells(board: seq<seq<int>>, width: nat, minos: seq<MinoOffset>, x: int, y: int, piece: int, r: int, c: int)
    requires IsBoard(board, width)
    requires forall i :: 0 <= i < |minos| ==> 0 <= x + minos[i].x < |board| && 0 <= y + minos[i].y < width
    requires 0 <= r < |board| && 0 <= c < width
    ensures Place(board, width, minos, x, y, piece)[r][c] == if Covers(minos, x, y, r, c) then piece else board[r][c]
  {
    if |minos| > 0 {
      var init := minos[..|minos| - 1];
      PlaceCells(board, width, init, x, y, piece, r, c);
      if Covers(init, x, y, r, c) {
        var i :| 0 <= i < |init| && x + init[i].x == r && y + init[i].y == c;
        assert x + minos[i].x == r && y + minos[i].y == c;
      }
      if Covers(minos, x, y, r, c) && !Covers(init, x, y, r, c) {
        var i :| 0 <= i < |minos| && x + minos[i].x == r && y + minos[i].y == c;
        assert i == |minos| - 1;
      }
    }
  }

  predicate FullRow(row: seq<int>) {
    forall c :: 0 <= c < |row| ==> row[c] != 0
  }

  /** The rows of the first n in which every cell is nonzero. */
  function FullRows(board: seq<seq<int>>, n: nat): (k: nat)
    requires n <= |board|
    ensures k <= n
  {
    if n == 0 then 0 else FullRows(board, n - 1) + if FullRow(board[n - 1]) then 1 else 0
  }

  datatype Features = Features(heightDiff: int, holeDiff: int, linesCleared: nat)

  /**
   * `get_move_features`: drops the piece in the move's column and rotation,
   * writes its minos into a copy of the board, and describes the result by
   * the change in height and holes and by the number of full rows. The
   * landing row is returned with the features.
   */
  method MoveFeatures(board: seq<seq<int>>, width: nat, shapes: seq<seq<MinoOffset>>, piece: int,
                      move: Move, preMaxHeight: int, preHoleCount: int)
    returns (x: int, post: seq<seq<int>>, features: Features)
    requires IsBoard(board, width) && IsShapes(shapes)
    requires 0 <= move.r < ROTATIONS && FitsColumns(shapes[move.r], move.y, width)
    requires forall i :: 0 <= i < |shapes[move.r]| ==> shapes[move.r][i].x - MinX(shapes[move.r]) < |board|
    ensures IsDropRow(board, width, shapes[move.r], move.y, x)
    ensures forall i :: 0 <= i < |shapes[move.r]| ==> 0 <= x + shapes[move.r][i].x < |board|
    ensures post == Place(board, width, shapes[move.r], x, move.y, piece)
    ensures features.heightDiff == MaxHeight(post, width, width) - preMaxHeight
    ensures features.holeDiff == HoleCount(post, width, width) - preHoleCount
    ensures features.linesCleared == FullRows(post, |post|)
  {
    var minos := shapes[move.r];
    x := DropRow(board, width, minos, move.y);
    if x > StartRow(minos) {
      DroppedPieceFits(board, width, minos, move.y, x);
    }
    post := board;
    var k := 0;
    while k < |minos|
      invariant 0 <= k <= |minos|
      invariant post == Place(board, width, minos[..k], x, move.y, piece)
    {
      assert minos[..k + 1][..k] == minos[..k];
      var m := minos[k];
      post := post[x + m.x := post[x + m.x][move.y + m.y := piece]];
      k := k + 1;
    }
    assert minos[..k] == minos;
    var maxHeight, holeCount := BoardStats(post, width);
    features := Features(maxHeight - preMaxHeight, holeCount - preHoleCount, FullRows(post, |post|));
  }

  // ---- Training labels ----

  /** The piece as it is about to lock: its column and rotation. */
  datatype Piece = Piece(y: int, r: int)

  /** `train`: each offered move is labelled chosen exactly when it is where the player put the piece. */
  function TrainLabels(shapes: seq<seq<MinoOffset>>, width: int, piece: Piece): (labels: seq<bool>)
    requires IsShapes(shapes)
    ensures |labels| == |PossibleMoves(shapes, width)|
  {
    var moves := PossibleMoves(shapes, width);
    seq(|moves|, i requires 0 <= i < |moves| => moves[i].y == piece.y && moves[i].r == piece.r)
  }

  /**
   * At most one move is labelled chosen, and one is exactly when the player's
   * placement is among the offered moves.
   */
  lemma TrainLabelsChooseOne(shapes: seq<seq<MinoOffset>>, width: int, piece: Piece)
    requires IsShapes(shapes)
    ensures forall i, j :: 0 <= i < j < |TrainLabels(shapes, width, piece)| ==>
      !(TrainLabels(shapes, width, piece)[i] && TrainLabels(shapes, width, piece)[j])
    ensures (exists i :: 0 <= i < |TrainLabels(shapes, width, piece)| && TrainLabels(shapes, width, piece)[i]) <==>
      0 <= piece.r < ROTATIONS && FitsColumns(shapes[piece.r], piece.y, width)
  {
    var moves := PossibleMoves(shapes, width);
    PossibleMovesDistinct(shapes, width);
    PossibleMovesIff(shapes, width, Move(piece.y, piece.r));
    if 0 <= piece.r < ROTATIONS && FitsColumns(shapes[piece.r], piece.y, width) {
      var i :| 0 <= i < |moves| && moves[i] == Move(piece.y, piece.r);
      assert TrainLabels(shapes, width, piece)[i];
    }
  }
}
