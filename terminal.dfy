/** The terminal as the pager sees it through crossterm: key events, and a
    hardware cursor that the relative moves clamp at the screen edges. Painting,
    clearing and scrolling the screen do not move the cursor and are not modelled. */
module Terminal {
  import opened Base

  datatype KeyCode =
    | Esc | Backspace | Delete | Enter
    | Left | Right | Up | Down
    | Char(c: char)
    | OtherKey

  /** A key press; `ctrl` holds exactly when the modifiers are `KeyModifiers::CONTROL`
      alone. Mouse, resize and focus events are `OtherEvent`. */
  datatype Event = Key(code: KeyCode, ctrl: bool) | OtherEvent

  /** `MoveLeft(n)`: stops at column 0; `n == 0` does not move. */
  function MoveLeft(col: u16, n: u16): (r: u16)
    ensures r <= col
  {
    if col >= n then col - n else 0
  }

  /** `MoveRight(n)`: stops at the last column. */
  function MoveRight(col: u16, n: u16, cols: u16): (r: u16)
    requires col < cols
    ensures col <= r < cols
  {
    Min(col + n, cols - 1)
  }

  /** `MoveUp(n)`: stops at row 0. */
  function MoveUp(row: u16, n: u16): (r: u16)
    ensures r <= row
  {
    if row >= n then row - n else 0
  }

  /** `MoveDown(n)`: stops at the last row. */
  function MoveDown(row: u16, n: u16, rows: u16): (r: u16)
    requires row < rows
    ensures row <= r < rows
  {
    Min(row + n, rows - 1)
  }

  /** `MoveTo(x, _)` / `MoveTo(_, y)`: an absolute coordinate, clamped to the screen. */
  function Clamp(x: u16, size: u16): (r: u16)
    requires size > 0
    ensures r < size
  {
    Min(x, size - 1)
  }
}
