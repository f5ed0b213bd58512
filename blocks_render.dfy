/**
 * How the blocks game is drawn on the light strip
 * (controller/shooting_stars/blocks.py, `get_frame_index` and
 * `render_game`): a 20 × 10 grid of lights wired as a snake, two halves of
 * five columns each, with the 18-row playfield between a top and a bottom
 * border row.
 */
module BlocksRender {
  import opened Wrappers
  import Device

  const ROWS: int := 20
  const COLS: int := 10
  const MID_COL: int := 5
  const MAX_ROW: int := ROWS - 1
  const GAME_ROWS: int := 18
  const GAME_ROW_OFFSET: int := 1
  const LED_COUNT: int := 200
  const COMPONENT_COUNT: nat := 3

  /** A cell of the grid: row 0 is the top, column 0 the left. */
  datatype Position = Position(row: int, col: int)

  predicate InGrid(p: Position) {
    0 <= p.row < ROWS && 0 <= p.col < COLS
  }

  /**
   * The light that shows grid cell (row, col). Each column is a run of
   * ROWS consecutive lights: the left half counts its columns from the middle
   * outwards into [0, 100), the right half from the middle outwards into
   * [100, 200), and the direction within a column alternates.
   */
  function FrameIndex(row: int, col: int): int {
    var columnStart := if col < MID_COL then ((MID_COL - 1) - col) * ROWS else col * ROWS;
    var goesUp := if col < MID_COL then col % 2 == 0 else col % 2 == 1;
    columnStart + if goesUp then row else MAX_ROW - row
  }

  /** The first light of a column's run. */
  function ColumnStart(col: int): int {
    if col < MID_COL then ((MID_COL - 1) - col) * ROWS else col * ROWS
  }

  /** The grid cell a light shows: the inverse of FrameIndex. */
  function GridPosition(i: int): (p: Position)
    requires 0 <= i < LED_COUNT
    ensures InGrid(p)
  {
    var col := if i < LED_COUNT / 2 then (MID_COL - 1) - i / ROWS else i / ROWS;
    var goesUp := if col < MID_COL then col % 2 == 0 else col % 2 == 1;
    var withinColumn := i % ROWS;
    Position(if goesUp then withinColumn else MAX_ROW - withinColumn, col)
  }

  /** Every cell has a light, and its column's lights form one run in its half. */
  lemma FrameIndexRange(row: int, col: int)
    requires InGrid(Position(row, col))
    ensures 0 <= FrameIndex(row, col) < LED_COUNT
    ensures ColumnStart(col) <= FrameIndex(row, col) < ColumnStart(col) + ROWS
    ensures col < MID_COL ==> FrameIndex(row, col) < LED_COUNT / 2
    ensures col >= MID_COL ==> LED_COUNT / 2 <= FrameIndex(row, col)
  {
  }

  lemma DivModRows(k: int, w: int)
    requires 0 <= w < ROWS
    ensures (k * ROWS + w) / ROWS == k && (k * ROWS + w) % ROWS == w
  {
  }

  /** Reading back the cell of a cell's light gives the cell. */
  lemma GridPositionOfFrameIndex(row: int, col: int)
    requires InGrid(Position(row, col))
    ensures 0 <= FrameIndex(row, col) < LED_COUNT
    ensures GridPosition(FrameIndex(row, col)) == Position(row, col)
  {
    FrameIndexRange(row, col);
    var k := if col < MID_COL then (MID_COL - 1) - col else col;
    var goesUp := if col < MID_COL then col % 2 == 0 else col % 2 == 1;
    DivModRows(k, if goesUp then row else MAX_ROW - row);
  }

  /** The light of a light's cell is that light. */
  lemma FrameIndexOfGridPosition(i: int)
    requires 0 <= i < LED_COUNT
    ensures FrameIndex(GridPosition(i).row, GridPosition(i).col) == i
  {
    var k := i / ROWS;
    DivModRows(k, i % ROWS);
  }

  /** FrameIndex is a bijection from the grid onto the lights [0, LED_COUNT). */
  lemma GridBijection()
    ensures forall row, col :: InGrid(Position(row, col)) ==>
      0 <= FrameIndex(row, col) < LED_COUNT && GridPosition(FrameIndex(row, col)) == Position(row, col)
    ensures forall i :: 0 <= i < LED_COUNT ==> FrameIndex(GridPosition(i).row, GridPosition(i).col) == i
  {
    forall row, col | InGrid(Position(row, col))
      ensures 0 <= FrameIndex(row, col) < LED_COUNT && GridPosition(FrameIndex(row, col)) == Position(row, col)
    {
      GridPositionOfFrameIndex(row, col);
    }
    forall i | 0 <= i < LED_COUNT
      ensures FrameIndex(GridPosition(i).row, GridPosition(i).col) == i
    {
      FrameIndexOfGridPosition(i);
    }
  }

  /** Two different cells never share a light. */
  lemma FrameIndexInjective(p: Position, q: Position)
    requires InGrid(p) && InGrid(q) && p != q
    ensures FrameIndex(p.row, p.col) != FrameIndex(q.row, q.col)
  {
    GridPositionOfFrameIndex(p.row, p.col);
    GridPositionOfFrameIndex(q.row, q.col);
  }

  predicate Adjacent(p: Position, q: Position) {
    (p.row == q.row && (p.col - q.col == 1 || q.col - p.col == 1)) ||
    (p.col == q.col && (p.row - q.row == 1 || q.row - p.row == 1))
  }

  /** Within a half, consecutive lights show neighbouring cells: the wiring is a snake. */
  lemma SnakeOrder(i: int)
    requires 0 <= i && i + 1 < LED_COUNT && i + 1 != LED_COUNT / 2
    ensures Adjacent(GridPosition(i), GridPosition(i + 1))
  {
    var k := i / ROWS;
    DivModRows(k, i % ROWS);
    if i % ROWS == ROWS - 1 {
      DivModRows(k + 1, 0);
    } else {
      DivModRows(k, i % ROWS + 1);
    }
  }

  /**
   * Where the runs begin and end: the left half starts at the top of the
   * middle-left column and ends at the bottom of the leftmost one, the right
   * half starts at the top of the middle-right column and ends at the bottom
   * of the rightmost one.
   */
  lemma HalfEnds()
    ensures FrameIndex(0, MID_COL - 1) == 0
    ensures FrameIndex(MAX_ROW, 0) == LED_COUNT / 2 - 1
    ensures FrameIndex(0, MID_COL) == LED_COUNT / 2
    ensures FrameIndex(MAX_ROW, COLS - 1) == LED_COUNT - 1
  {
  }

  /** The kinds of cell the game's playfield holds. */
  datatype Mino = Empty | I | J | L | O | S | T | Z | Ghost | Garbage

  datatype Rgb = Rgb(red: int, green: int, blue: int)

  const BLACK := Rgb(0, 0, 0)

  /** The colour table of the blocks game. */
  function Colour(m: Mino): (c: Rgb)
    ensures 0 <= c.red < 256 && 0 <= c.green < 256 && 0 <= c.blue < 256
    ensures m == Empty ==> c == BLACK
  {
    match m
    case Empty => BLACK
    case I => Rgb(255, 216, 0)
    case J => Rgb(255, 0, 0)
    case L => Rgb(0, 127, 0)
    case O => Rgb(75, 0, 130)
    case S => Rgb(100, 50, 0)
    case T => Rgb(0, 250, 171)
    case Z => Rgb(0, 100, 250)
    case Ghost => BLACK
    case Garbage => BLACK
  }

  /** Grey borders while the computer plays, red ones while a person does. */
  function BorderColour(aiMode: bool): (c: Rgb)
    ensures 0 <= c.red < 256 && 0 <= c.green < 256 && 0 <= c.blue < 256
  {
    if aiMode then Rgb(127, 127, 127) else Rgb(127, 25, 25)
  }

  /** The game's playfield: GAME_ROWS rows of COLS cells. */
  predicate IsPlayfield(p: seq<seq<Mino>>) {
    |p| == GAME_ROWS && forall r :: 0 <= r < |p| ==> |p[r]| == COLS
  }

  function Pixel(frame: array2<int>, i: int): Rgb
    reads frame
    requires 0 <= i < frame.Length0 && frame.Length1 == COMPONENT_COUNT
  {
    Rgb(frame[i, 0], frame[i, 1], frame[i, 2])
  }

  /** The colour light i has in a row-major byte frame. */
  function PixelAt(bytes: seq<int>, i: int): Rgb
    requires 0 <= i && i * COMPONENT_COUNT + 2 < |bytes|
  {
    Rgb(bytes[i * COMPONENT_COUNT], bytes[i * COMPONENT_COUNT + 1], bytes[i * COMPONENT_COUNT + 2])
  }

  /** Light i of the row-major bytes of a matrix of colours is row i of the matrix. */
  lemma PixelOfRowMajor(cells: seq<seq<int>>, i: nat)
    requires forall k :: 0 <= k < |cells| ==> |cells[k]| == COMPONENT_COUNT
    requires i < |cells|
    ensures i * COMPONENT_COUNT + 2 < |Device.RowMajor(cells)|
    ensures PixelAt(Device.RowMajor(cells), i) == Rgb(cells[i][0], cells[i][1], cells[i][2])
  {
    Device.RowMajorAt(cells, COMPONENT_COUNT, i, 0);
    Device.RowMajorAt(cells, COMPONENT_COUNT, i, 1);
    Device.RowMajorAt(cells, COMPONENT_COUNT, i, 2);
  }

  predicate ByteFrame(frame: array2<int>)
    reads frame
  {
    forall i, k :: 0 <= i < frame.Length0 && 0 <= k < frame.Length1 ==> 0 <= frame[i, k] < 256
  }

  /** Paints one light, leaving every other entry of the frame as it was. */
  method SetPixel(frame: array2<int>, i: int, c: Rgb)
    requires 0 <= i < frame.Length0 && frame.Length1 == COMPONENT_COUNT
    requires ByteFrame(frame)
    requires 0 <= c.red < 256 && 0 <= c.green < 256 && 0 <= c.blue < 256
    modifies frame
    ensures ByteFrame(frame)
    ensures Pixel(frame, i) == c
    ensures forall j :: 0 <= j < frame.Length0 && j != i ==> Pixel(frame, j) == old(Pixel(frame, j))
  {
    frame[i, 0] := c.red;
    frame[i, 1] := c.green;
    frame[i, 2] := c.blue;
  }

  /** The colour the playfield puts on a grid cell: rows 1 to GAME_ROWS show it, the rest stay dark. */
  function PlayfieldColour(playfield: seq<seq<Mino>>, p: Position): Rgb
    requires IsPlayfield(playfield) && InGrid(p)
  {
    if GAME_ROW_OFFSET <= p.row < GAME_ROW_OFFSET + GAME_ROWS
    then Colour(playfield[p.row - GAME_ROW_OFFSET][p.col])
    else BLACK
  }

  /** The first loop of `render_game`: every non-empty cell is painted one row down. */
  method DrawPlayfield(frame: array2<int>, playfield: seq<seq<Mino>>)
    requires IsPlayfield(playfield)
    requires frame.Length0 == LED_COUNT && frame.Length1 == COMPONENT_COUNT
    requires ByteFrame(frame)
    requires forall j :: 0 <= j < LED_COUNT ==> Pixel(frame, j) == BLACK
    modifies frame
    ensures ByteFrame(frame)
    ensures forall j :: 0 <= j < LED_COUNT ==> Pixel(frame, j) == PlayfieldColour(playfield, GridPosition(j))
  {
    GridBijection();
    var row := 0;
    while row < GAME_ROWS
      invariant 0 <= row <= GAME_ROWS
      invariant ByteFrame(frame)
      invariant forall j :: 0 <= j < LED_COUNT ==>
        Pixel(frame, j) == if GridPosition(j).row < row + GAME_ROW_OFFSET
          then PlayfieldColour(playfield, GridPosition(j)) else BLACK
    {
      var col := 0;
      while col < COLS
        invariant 0 <= col <= COLS
        invariant ByteFrame(frame)
        invariant forall j :: 0 <= j < LED_COUNT ==>
          var p := GridPosition(j);
          Pixel(frame, j) == if p.row < row + GAME_ROW_OFFSET || (p.row == row + GAME_ROW_OFFSET && p.col < col)
            then PlayfieldColour(playfield, p) else BLACK
      {
        var pixel := playfield[row][col];
        if pixel != Empty {
          SetPixel(frame, FrameIndex(row + GAME_ROW_OFFSET, col), Colour(pixel));
        }
        col := col + 1;
      }
      row := row + 1;
    }
  }

  /** The colour `render_game` gives a grid cell. */
  function GameColour(playfield: seq<seq<Mino>>, aiMode: bool, p: Position): Rgb
    requires IsPlayfield(playfield) && InGrid(p)
  {
    if p.row == 0 || p.row == MAX_ROW then BorderColour(aiMode) else PlayfieldColour(playfield, p)
  }

  /** The second loop of `render_game`: the top and bottom rows take the border colour. */
  method DrawBorders(frame: array2<int>, playfield: seq<seq<Mino>>, aiMode: bool)
    requires IsPlayfield(playfield)
    requires frame.Length0 == LED_COUNT && frame.Length1 == COMPONENT_COUNT
    requires ByteFrame(frame)
    requires forall j :: 0 <= j < LED_COUNT ==> Pixel(frame, j) == PlayfieldColour(playfield, GridPosition(j))
    modifies frame
    ensures ByteFrame(frame)
    ensures forall j :: 0 <= j < LED_COUNT ==> Pixel(frame, j) == GameColour(playfield, aiMode, GridPosition(j))
  {
    GridBijection();
    var border := BorderColour(aiMode);
    var col := 0;
    while col < COLS
      invariant 0 <= col <= COLS
      invariant ByteFrame(frame)
      invariant forall j :: 0 <= j < LED_COUNT ==>
        var p := GridPosition(j);
        Pixel(frame, j) == if (p.row == 0 || p.row == MAX_ROW) && p.col < col
          then border else PlayfieldColour(playfield, p)
    {
      SetPixel(frame, FrameIndex(0, col), border);
      SetPixel(frame, FrameIndex(MAX_ROW, col), border);
      col := col + 1;
    }
  }

  /**
   * `render_game`: draws the playfield one row down from the top, skipping
   * empty cells, then paints the top and bottom rows in the border colour,
   * and pushes the frame to the device. The result is the device's answer.
   */
  method RenderGame(device: Device.Device, playfield: seq<seq<Mino>>, aiMode: bool)
    returns (r: Result<seq<int>, Device.FrameError>)
    requires IsPlayfield(playfield)
    ensures !device.connected ==> r == Err(Device.DeviceDisconnected)
    ensures device.connected ==> r.Ok? && |r.value| == LED_COUNT * COMPONENT_COUNT
    ensures r.Ok? ==> forall i :: 0 <= i < LED_COUNT ==>
      PixelAt(r.value, i) == GameColour(playfield, aiMode, GridPosition(i))
  {
    var frame := new int[LED_COUNT, COMPONENT_COUNT]((i, k) => 0);
    DrawPlayfield(frame, playfield);
    DrawBorders(frame, playfield, aiMode);
    var cells := Device.Cells(frame);
    r := device.SetFrameArray(Device.FrameArray(Device.UByte, cells, COMPONENT_COUNT));
    if r.Ok? {
      forall i | 0 <= i < LED_COUNT
        ensures PixelAt(r.value, i) == Pixel(frame, i)
      {
        PixelOfRowMajor(cells, i);
      }
    }
  }

  /**
   * What the pushed frame shows, cell by cell: playfield row i on grid row
   * i + 1, the border colour on every cell of the top and bottom rows, and
   * no light at all for an empty cell.
   */
  lemma {:induction false} RenderedCells(playfield: seq<seq<Mino>>, aiMode: bool, bytes: seq<int>)
    requires IsPlayfield(playfield) && |bytes| == LED_COUNT * COMPONENT_COUNT
    requires forall i :: 0 <= i < LED_COUNT ==> PixelAt(bytes, i) == GameColour(playfield, aiMode, GridPosition(i))
    ensures forall row, col :: 0 <= row < GAME_ROWS && 0 <= col < COLS ==>
      PixelAt(bytes, FrameIndex(row + GAME_ROW_OFFSET, col)) == Colour(playfield[row][col])
    ensures forall col :: 0 <= col < COLS ==>
      PixelAt(bytes, FrameIndex(0, col)) == BorderColour(aiMode) &&
      PixelAt(bytes, FrameIndex(MAX_ROW, col)) == BorderColour(aiMode)
    ensures forall row, col :: 0 <= row < GAME_ROWS && 0 <= col < COLS && playfield[row][col] == Empty ==>
      PixelAt(bytes, FrameIndex(row + GAME_ROW_OFFSET, col)) == BLACK
  {
    forall row, col | 0 <= row < GAME_ROWS && 0 <= col < COLS
      ensures PixelAt(bytes, FrameIndex(row + GAME_ROW_OFFSET, col)) == Colour(playfield[row][col])
    {
      GridPositionOfFrameIndex(row + GAME_ROW_OFFSET, col);
    }
    forall col | 0 <= col < COLS
      ensures PixelAt(bytes, FrameIndex(0, col)) == BorderColour(aiMode)
      ensures PixelAt(bytes, FrameIndex(MAX_ROW, col)) == BorderColour(aiMode)
    {
      GridPositionOfFrameIndex(0, col);
      GridPositionOfFrameIndex(MAX_ROW, col);
    }
  }
}
