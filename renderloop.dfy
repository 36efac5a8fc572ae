/** The pager's main loop of `src/renderloop.rs`: the visible line range, the
    terminal cursor, the sticky column, and the two input modes (normal keys and
    the `/` search prompt). Drawing is not modelled; what remains is the state
    each key leaves behind. */
module RenderLoop {
  import opened Base
  import opened Terminal
  import opened Line
  import opened Search

  const STATUS_LINE_OFFSET: u16 := 2
  const DISPLAY_BOTTOM_LINE_OFFSET: u16 := 3
  const CURSOR_JUMP_OFFSET: u16 := 30

  /** What the tuple-taking `get_near_line` / `get_near_line_with_previous`
      answer: the match to jump to, and the selection they leave behind. */
  datatype NearAnswer = NearAnswer(found: Option<Match>, index: Option<nat>)

  /** One of those two lookups, given the matches, the current selection and
      the (line, column) position the search starts from. */
  type Lookup = (seq<Match>, Option<nat>, (u64, u64)) -> NearAnswer

  /** The only thing assumed about a lookup: the selection it leaves is absent
      or a real match. */
  ghost predicate ValidLookup(f: Lookup) {
    forall ls, idx, p :: f(ls, idx, p).index.Some? ==> f(ls, idx, p).index.value < |ls|
  }

  /** The handler a normal-mode key reaches in `handler_display_input_mode`. */
  datatype Action =
    | CursorDown | CursorUp | CursorLeft | CursorRight
    | HalfPageBack | HalfPageForward | OpenPrompt | NextMatch | PreviousMatch | NoAction

  /** The key table of `handler_display_input_mode`: letters and arrows ignore
      the modifiers, Ctrl-u and Ctrl-d need the Control modifier, and every
      other key reaches no handler. */
  function DisplayAction(ev: Event): Action {
    match ev
    case Key(Char('j'), _) => CursorDown
    case Key(Down, _) => CursorDown
    case Key(Char('k'), _) => CursorUp
    case Key(Up, _) => CursorUp
    case Key(Char('h'), _) => CursorLeft
    case Key(Left, _) => CursorLeft
    case Key(Char('l'), _) => CursorRight
    case Key(Right, _) => CursorRight
    case Key(Char('u'), true) => HalfPageBack
    case Key(Char('d'), true) => HalfPageForward
    case Key(Char('/'), _) => OpenPrompt
    case Key(Char('n'), _) => NextMatch
    case Key(Char('N'), _) => PreviousMatch
    case _ => NoAction
  }

  /** `is_required_correction_cursor_col`: how far right the cursor must be put
      back for the sticky column. It is 0 when the cursor already sits in that
      column or the line has at most one byte, the sticky column itself when the
      line reaches past it, and otherwise the line's last column; it never
      exceeds the last column of the line. */
  function RequiredCorrection(col: u64, beforeCol: u64, lineLen: u64): (r: u16)
    ensures col == beforeCol ==> r == 0
    ensures lineLen <= 1 ==> r == 0
    ensures col != beforeCol && beforeCol < lineLen && beforeCol < TWO_16 ==> r == beforeCol
    ensures col != beforeCol && 2 <= lineLen <= beforeCol && lineLen <= TWO_16 ==> r == lineLen - 1
    ensures r <= Max(lineLen, 1) - 1
  {
    if col == beforeCol then 0
    else if lineLen > beforeCol then AsU16(beforeCol)
    else if lineLen == 0 || lineLen == 1 then 0
    else Sub16(AsU16(lineLen), 1)
  }

  /** `d` in the correction step: the correction minus the column, in `i16`,
      and never negative. */
  function ShadowStep(correction: u16, col: u16): (d: u16)
    ensures col <= correction < 0x8000 ==> d == correction - col
    ensures correction <= col < 0x8000 ==> d == 0
  {
    var d := SubI16(AsI16(correction), AsI16(col));
    if d < 0 then 0 else d
  }

  /** The column `j`/`k` leave after moving to a line whose last column is
      `nextLen` (its stripped length minus one, saturating), starting in column
      `col` with sticky column `beforeCol`. */
  function ColumnAfterVertical(col: u16, beforeCol: u64, nextLen: u64, cols: u16): (r: u16)
    requires col < cols
    ensures r < cols
  {
    var colDiff: u16 := if col > AsU16(nextLen) then col - AsU16(nextLen) else 0;
    var afterLeft := MoveLeft(col, colDiff);
    var correction := RequiredCorrection(col, beforeCol, Add64(nextLen, 1));
    if correction > 0 then MoveRight(afterLeft, ShadowStep(correction, col), cols) else afterLeft
  }

  /** The sticky column: away from the 16-bit limits, a vertical move puts the
      cursor in the sticky column (or stays further right, where it already
      was), pulled back to the last column of the new line and of the screen. */
  lemma StickyColumn(col: u16, beforeCol: u64, nextLen: u64, cols: u16)
    requires col < cols <= 0x8000 && beforeCol < 0x8000 && nextLen < 0x8000
    ensures ColumnAfterVertical(col, beforeCol, nextLen, cols)
         == Min(Min(Max(col, beforeCol), nextLen), cols - 1)
  {
    assert AsU16(nextLen) == nextLen;
    assert Add64(nextLen, 1) == nextLen + 1;
    var correction := RequiredCorrection(col, beforeCol, nextLen + 1);
    assert AsI16(correction) == correction && AsI16(col) == col;
    assert SubI16(correction, col) == correction - col;
  }

  /** The sticky-column scenario: from column 8, moving onto a 3-byte line puts
      the cursor in column 2; moving on to a 10-byte line brings it back to 8. */
  lemma StickyColumnScenario(cols: u16)
    requires 9 <= cols <= 0x8000
    ensures ColumnAfterVertical(8, 8, 2, cols) == 2
    ensures ColumnAfterVertical(2, 8, 9, cols) == 8
  {
    StickyColumn(8, 8, 2, cols);
    StickyColumn(2, 8, 9, cols);
  }

  /** The `l` guard `line_len as u16 - 1 > col`. */
  predicate RightAllowed(lineLen: u64, col: u16) {
    Sub16(AsU16(lineLen), 1) > col
  }

  /** On a non-empty line shorter than 2^16 bytes, `l` moves exactly while a
      character lies to the right of the cursor. */
  lemma RightAllowedWithinLine(lineLen: u64, col: u16)
    requires 1 <= lineLen < TWO_16
    ensures RightAllowed(lineLen, col) <==> col + 1 < lineLen
  {
  }

  /** On an empty line `0 - 1` wraps to 65535, so `l` still moves the cursor. */
  lemma RightOnEmptyLine(col: u16)
    requires col < 0xFFFF
    ensures RightAllowed(0, col)
  {
  }

  /** Ctrl-u's `scroll_offset`: 30 lines, fewer near the top; no scroll exactly
      when `start` is 0 or 30. */
  function ScrollOffsetUp(start: u64): (so: u16)
    ensures so <= CURSOR_JUMP_OFFSET
    ensures so == 0 <==> start == 0 || start == CURSOR_JUMP_OFFSET as int
    ensures 0 < start < CURSOR_JUMP_OFFSET as int ==> so == CURSOR_JUMP_OFFSET - start
  {
    if start <= CURSOR_JUMP_OFFSET as int then
      (if start == 0 then 0 else CURSOR_JUMP_OFFSET - start)
    else CURSOR_JUMP_OFFSET
  }

  /** The visible range Ctrl-u leaves: at most 30 lines back, never past the
      first line, unchanged at the top, and a full screen of `rows - 2` lines
      after a scroll. */
  function HalfPageUpView(start: u64, end: u64, rows: u16): (r: (u64, u64))
    requires rows >= 3
    ensures r.0 <= start && start - r.0 <= CURSOR_JUMP_OFFSET as int
    ensures start == 0 ==> r == (start, end)
    ensures start > CURSOR_JUMP_OFFSET as int && start + rows < TWO_64 ==>
      r.0 == start - CURSOR_JUMP_OFFSET && r.1 == r.0 + rows - DISPLAY_BOTTOM_LINE_OFFSET
    ensures 0 < start < CURSOR_JUMP_OFFSET as int ==> r == (0, rows - DISPLAY_BOTTOM_LINE_OFFSET)
  {
    var so := ScrollOffsetUp(start);
    var lineStart: u64 := if start <= CURSOR_JUMP_OFFSET as int then 1 else start - CURSOR_JUMP_OFFSET + 1;
    if so > 0 then (lineStart - 1, Sub64(Sub64(Add64(lineStart, rows), STATUS_LINE_OFFSET), 2))
    else (start, end)
  }

  /** The row Ctrl-u leaves the cursor on after scrolling by `so`. */
  function HalfPageUpRow(row: u16, so: u16): (r: u16)
    requires so <= CURSOR_JUMP_OFFSET
    ensures r <= row
  {
    var jump := CURSOR_JUMP_OFFSET - so;
    if jump == 0 then row
    else
      var jump' := if jump > row then jump - row else jump;
      if jump' > 0 then MoveUp(row, jump') else row
  }

  /** Ctrl-d's `(scroll_offset, display_line_end)`, in release-build arithmetic. */
  function HalfPageDownPlan(lineIdx: u64, row: u16, end: u64, lineCount: u64, rows: u16): (r: (u16, u64))
    ensures r.1 <= Sub64(lineCount, 1)
    ensures r.1 == Sub64(lineCount, 1) && end == r.1 ==> r.0 == 0
  {
    var lineEnd0 := Sub64(Sub64(Add64(Add64(lineIdx, CURSOR_JUMP_OFFSET), rows), STATUS_LINE_OFFSET), row);
    var last := Sub64(lineCount, 1);
    var so1: u16 := if lineEnd0 > last then Sub16(CURSOR_JUMP_OFFSET, AsU16(Sub64(Sub64(lineEnd0, lineCount), 1)))
                    else CURSOR_JUMP_OFFSET;
    var lineEnd := if lineEnd0 > last then last else lineEnd0;
    var so := if lineEnd == last && end == lineEnd then 0 else so1;
    (so, lineEnd)
  }

  /** The visible range Ctrl-d leaves: it never ends past the last line. */
  function HalfPageDownView(lineIdx: u64, row: u16, start: u64, end: u64, lineCount: u64, rows: u16): (r: (u64, u64))
    ensures r.1 == end || r.1 <= Sub64(lineCount, 1)
  {
    var (so, lineEnd) := HalfPageDownPlan(lineIdx, row, end, lineCount, rows);
    if so > 0 then (Sub64(Add64(lineIdx, so), 1), lineEnd) else (start, end)
  }

  /** Ctrl-d leaves the range in place when its end is already the last line
      (for a cursor inside the range, away from the 64-bit limit). */
  lemma HalfPageDownAtEnd(lineIdx: u64, row: u16, start: u64, end: u64, lineCount: u64, rows: u16)
    requires lineCount >= 1 && end == lineCount - 1 && row < rows && lineIdx == start + row
    requires end <= start + rows + 28 && lineIdx + rows + 30 < TWO_64
    ensures HalfPageDownView(lineIdx, row, start, end, lineCount, rows) == (start, end)
  {
    var lineEnd0 := Sub64(Sub64(Add64(Add64(lineIdx, CURSOR_JUMP_OFFSET), rows), STATUS_LINE_OFFSET), row);
    assert Add64(lineIdx, CURSOR_JUMP_OFFSET) == lineIdx + 30;
    assert Add64(lineIdx + 30, rows) == lineIdx + 30 + rows;
    assert Sub64(lineIdx + 30 + rows, 2) == lineIdx + 28 + rows;
    assert lineEnd0 == start + rows + 28;
    assert Sub64(lineCount, 1) == end;
  }

  /** Ctrl-d's scroll offset when the computed end `lineIdx + 30 + rows - 2 - row`
      lies `d` lines past the last line `line_count - 1` (and the range does
      not already end there): `30 - (d - 2)` in `u16`, that is, fewer than 30
      lines while `d < 32`, no scroll at all when `d == 32`, and a wrapped
      offset of more than 30 lines when `d > 32`. */
  lemma HalfPageDownOffset(lineIdx: u64, row: u16, end: u64, lineCount: u64, rows: u16)
    requires row < rows && lineCount >= 1 && end != lineCount - 1
    requires lineIdx + CURSOR_JUMP_OFFSET + rows < TWO_64
    requires lineIdx + CURSOR_JUMP_OFFSET + rows - STATUS_LINE_OFFSET - row > lineCount - 1
    requires lineIdx + CURSOR_JUMP_OFFSET + rows - STATUS_LINE_OFFSET - row - (lineCount - 1) < TWO_16
    ensures var d := lineIdx + CURSOR_JUMP_OFFSET + rows - STATUS_LINE_OFFSET - row - (lineCount - 1);
      var so := HalfPageDownPlan(lineIdx, row, end, lineCount, rows).0;
      (d < 32 ==> so == 32 - d) && (d == 32 ==> so == 0) && (d > 32 ==> so == TWO_16 + 32 - d)
  {
    var lineEnd0 := lineIdx + CURSOR_JUMP_OFFSET + rows - STATUS_LINE_OFFSET - row;
    assert Add64(Add64(lineIdx, CURSOR_JUMP_OFFSET), rows) == lineIdx + CURSOR_JUMP_OFFSET + rows;
    assert Sub64(Sub64(lineIdx + CURSOR_JUMP_OFFSET + rows, STATUS_LINE_OFFSET), row) == lineEnd0;
    assert Sub64(lineCount, 1) == lineCount - 1;
    var d := lineEnd0 - (lineCount - 1);
    if d >= 2 {
      assert Sub64(Sub64(lineEnd0, lineCount), 1) == d - 2;
      assert AsU16(d - 2) == d - 2;
    } else {
      assert Sub64(Sub64(lineEnd0, lineCount), 1) == TWO_64 - 1;
      assert AsU16(TWO_64 - 1) == 0xFFFF;
    }
  }

  /** When the clamped end lies more than 32 lines before the computed one,
      `30 - (line_end - line_count - 1) as u16` wraps: with 10 lines, a 24-row
      window, the cursor on line 0 and the range ending on line 5, Ctrl-d sets
      the start of the range to line 65524, far beyond its end. */
  lemma HalfPageDownShortFile()
    ensures HalfPageDownPlan(0, 0, 5, 10, 24) == (65525, 9)
    ensures HalfPageDownView(0, 0, 0, 5, 10, 24) == (65524, 9)
  {
  }

  /** The row Ctrl-d leaves the cursor on; `start` is the start after the scroll. */
  function HalfPageDownRow(start: u64, row: u16, so: u16, lineEnd: u64, lineCount: u64, rows: u16): (r: u16)
    requires row < rows
    ensures row <= r < rows
  {
    var jump := Sub16(CURSOR_JUMP_OFFSET, so);
    if jump == 0 then row
    else
      var check := Add16(Add16(AsU16(start), row), jump);
      var jump' :=
        if check > AsU16(lineCount) then Sub16(Sub16(Sub16(AsU16(lineCount), AsU16(start)), row), 1)
        else if check > AsU16(lineEnd) then Sub16(Sub16(Sub16(rows, row), STATUS_LINE_OFFSET), 1)
        else jump;
      if jump' > 0 then MoveDown(row, jump', rows) else row
  }

  /** The loop of `less_loop` that paints the first screen and sets
      `display_lines.end`: it ends on the last screen row or on index
      `line_count as u16 - 1`, whichever comes first, and panics when that
      index is not a line of the rope. */
  method InitialDisplayEnd(fileLen: nat, lineCount: u64, rows: u16) returns (end: u64, inRange: bool)
    requires rows >= 3
    ensures inRange <==> Min(rows - DISPLAY_BOTTOM_LINE_OFFSET, Sub16(AsU16(lineCount), 1)) < fileLen
    ensures inRange ==> end == Min(rows - DISPLAY_BOTTOM_LINE_OFFSET, Sub16(AsU16(lineCount), 1))
  {
    var last := Sub16(AsU16(lineCount), 1);
    end := 0;
    var idx: u16 := 0;
    while idx < rows - STATUS_LINE_OFFSET
      invariant idx <= rows - STATUS_LINE_OFFSET && idx <= last
      invariant idx > 0 ==> end == idx - 1 && idx - 1 < fileLen
    {
      end := idx;
      if idx >= fileLen {
        return end, false;
      }
      if idx >= last {
        return end, true;
      }
      idx := idx + 1;
    }
    inRange := true;
  }

  /** The first screen of an empty file (a rope of one empty line) reads line 1:
      `0 as u16 - 1` wraps, so on a window of 4 rows or more the loop panics. */
  lemma EmptyFilePanics(rows: u16)
    requires rows >= 4
    ensures Min(rows - DISPLAY_BOTTOM_LINE_OFFSET, Sub16(AsU16(0), 1)) >= 1
  {
  }

  /** `DisplayLines`: the visible range, the cursor saved when the search
      prompt opens, and the sticky column (the shadow row is never read). Its
      `*_mut` accessors are plain field assignments here. */
  class DisplayLines {
    var start: u64
    var end: u64
    var cursorPos: (u64, u64)
    var shadowCol: u64

    constructor ()
      ensures start == 0 && end == 0 && cursorPos == (0, 0) && shadowCol == 0
    {
      start, end, cursorPos, shadowCol := 0, 0, (0, 0), 0;
    }
  }

  /** The state of `less_loop`: the file, the window, the mode flag, the
      terminal cursor and how the loop stands. The matcher and the two lookups
      are parameters. */
  class Pager {
    const file: seq<RopeLine>
    const lineCount: u64
    const windowRows: u16
    const windowCols: u16
    const matcher: (string, string) -> SearchOutcome
    const nearLine: Lookup
    const nearLineBefore: Lookup
    const display: DisplayLines
    const search: SearchResult
    var searchMode: bool
    var row: u16
    var col: u16
    var status: Status

    ghost predicate Valid()
      reads this, display, search
    {
      FileFits(file) && lineCount == |file| - 1
      && windowRows >= 3 && windowCols >= 1
      && row < windowRows && col < windowCols
      && search.Valid()
      && ValidLookup(nearLine) && ValidLookup(nearLineBefore)
    }

    /** The set-up of `less_loop`: an empty search state, the first screen
        painted, the cursor at the top left, normal mode. */
    constructor (filename: string, file: seq<RopeLine>, windowRows: u16, windowCols: u16,
                 matcher: (string, string) -> SearchOutcome, nearLine: Lookup, nearLineBefore: Lookup)
      requires FileFits(file) && windowRows >= 3 && windowCols >= 1
      requires ValidLookup(nearLine) && ValidLookup(nearLineBefore)
      ensures Valid() && fresh(display) && fresh(search)
      ensures this.file == file && lineCount == |file| - 1
      ensures this.windowRows == windowRows && this.windowCols == windowCols
      ensures this.matcher == matcher && this.nearLine == nearLine && this.nearLineBefore == nearLineBefore
      ensures search.filename == filename && search.word == "" && search.wordVec == []
      ensures search.lines == [] && search.nowIdx == None
      ensures display.start == 0 && display.cursorPos == (0, 0) && display.shadowCol == 0
      ensures !searchMode && row == 0 && col == 0
      ensures var end := Min(windowRows - DISPLAY_BOTTOM_LINE_OFFSET, Sub16(AsU16(|file| - 1), 1));
        (status == if end < |file| then Running else Panicked)
        && (status.Running? ==> display.end == end)
    {
      this.file := file;
      lineCount := |file| - 1;
      this.windowRows := windowRows;
      this.windowCols := windowCols;
      this.matcher := matcher;
      this.nearLine := nearLine;
      this.nearLineBefore := nearLineBefore;
      var d := new DisplayLines();
      var end, inRange := InitialDisplayEnd(|file|, |file| - 1, windowRows);
      d.end := end;
      display := d;
      search := new SearchResult(filename);
      searchMode := false;
      row, col := 0, 0;
      status := if inRange then Running else Panicked;
    }

    /** The line index of the cursor, `start + 1 + row - 1`. */
    function CursorLine(): u64
      reads this, display
    {
      Sub64(Add64(Add64(display.start, 1), row), 1)
    }

    /** `j` scrolls when the cursor is on the bottom text row and the range
        does not end on the line before `line_count`. */
    ghost predicate ScrollsDown()
      reads this, display
    {
      row as int == windowRows as int - DISPLAY_BOTTOM_LINE_OFFSET as int && lineCount != Add64(display.end, 1)
    }

    /** Otherwise `j` moves the cursor down, unless the row after it is `line_count`. */
    ghost predicate MovesDown()
      reads this, display
    {
      row as int != windowRows as int - DISPLAY_BOTTOM_LINE_OFFSET as int && lineCount != Add16(row, 1)
    }

    /** What `j` / Down on line `lineIdx` leaves behind: a scroll or a move
        down a row, the start and end of the range moving together, the column
        following the sticky column onto the next line, and the sticky column
        itself unchanged. Reading a line that does not exist panics. */
    twostate predicate KeyDownEffect(lineIdx: u64)
      requires old(Valid())
      reads this, display
    {
      display.shadowCol == old(display.shadowCol) && display.cursorPos == old(display.cursorPos)
      && (old(ScrollsDown()) ==>
            display.start == Add64(old(display.start), 1) && display.end == Add64(old(display.end), 1)
            && row == old(row)
            && status == if Add64(old(display.end), 1) < |file| && Add64(lineIdx, 1) < |file| then Running else Panicked)
      && (!old(ScrollsDown()) && old(MovesDown()) ==>
            display.start == old(display.start) && display.end == old(display.end)
            && row == MoveDown(old(row), 1, windowRows)
            && status == if Add64(lineIdx, 1) < |file| then Running else Panicked)
      && (!old(ScrollsDown()) && !old(MovesDown()) ==>
            display.start == old(display.start) && display.end == old(display.end)
            && row == old(row) && col == old(col) && status == old(status))
      && ((old(ScrollsDown()) || old(MovesDown())) ==>
            if status.Running? then
              Add64(lineIdx, 1) < |file|
              && col == ColumnAfterVertical(old(col), old(display.shadowCol),
                                            SaturatingSub(StrippedLength(file[Add64(lineIdx, 1)]), 1), windowCols)
            else col == old(col))
    }

    /** `j` / Down on line `lineIdx`. */
    method KeyDown(lineIdx: u64)
      requires Valid() && status.Running?
      modifies this`row, this`col, this`status, display
      ensures Valid()
      ensures KeyDownEffect(lineIdx)
    {
      var c, r := col, row;
      var colDiff: u16 := 0;
      var nextLen: u64 := 0;
      var beforeCol := display.shadowCol;
      if windowRows - DISPLAY_BOTTOM_LINE_OFFSET == r && lineCount != Add64(display.end, 1) {
        display.start := Add64(display.start, 1);
        display.end := Add64(display.end, 1);
        if display.end >= |file| {
          status := Panicked;
          return;
        }
        if Add64(lineIdx, 1) >= |file| {
          status := Panicked;
          return;
        }
        nextLen := SaturatingSub(StrippedLength(file[Add64(lineIdx, 1)]), 1);
        if c > AsU16(nextLen) {
          colDiff := c - AsU16(nextLen);
        }
      } else if windowRows - DISPLAY_BOTTOM_LINE_OFFSET != r && lineCount != Add16(r, 1) {
        row := MoveDown(row, 1, windowRows);
        if Add64(lineIdx, 1) >= |file| {
          status := Panicked;
          return;
        }
        nextLen := SaturatingSub(StrippedLength(file[Add64(lineIdx, 1)]), 1);
        if c > AsU16(nextLen) {
          colDiff := c - AsU16(nextLen);
        }
      }
      if colDiff > 0 {
        col := MoveLeft(col, colDiff);
      }
      var correction := RequiredCorrection(c, beforeCol, Add64(nextLen, 1));
      if correction > 0 {
        col := MoveRight(col, ShadowStep(correction, c), windowCols);
      }
    }

    /** `k` scrolls when the cursor is on row 0 and the range does not start at line 0. */
    ghost predicate ScrollsUp()
      reads this, display
    {
      row == 0 && display.start > 0
    }

    /** What `k` / Up on line `lineIdx` leaves behind: the mirror image of `j`.
        At the top of the file on row 0 nothing changes. */
    twostate predicate KeyUpEffect(lineIdx: u64)
      requires old(Valid())
      reads this, display
    {
      display.shadowCol == old(display.shadowCol) && display.cursorPos == old(display.cursorPos)
      && (old(ScrollsUp()) ==>
            display.start == old(display.start) - 1 && display.end == Sub64(old(display.end), 1)
            && row == old(row)
            && status == if display.start < |file| && Sub64(lineIdx, 1) < |file| then Running else Panicked)
      && (old(row) != 0 ==>
            display.start == old(display.start) && display.end == old(display.end)
            && row == old(row) - 1
            && status == if Sub64(lineIdx, 1) < |file| then Running else Panicked)
      && (old(row) == 0 && old(display.start) == 0 ==>
            display.start == old(display.start) && display.end == old(display.end)
            && row == old(row) && col == old(col) && status == old(status))
      && ((old(ScrollsUp()) || old(row) != 0) ==>
            if status.Running? then
              Sub64(lineIdx, 1) < |file|
              && col == ColumnAfterVertical(old(col), old(display.shadowCol),
                                            SaturatingSub(StrippedLength(file[Sub64(lineIdx, 1)]), 1), windowCols)
            else col == old(col))
    }

    /** `k` / Up on line `lineIdx`. */
    method KeyUp(lineIdx: u64)
      requires Valid() && status.Running?
      modifies this`row, this`col, this`status, display
      ensures Valid()
      ensures KeyUpEffect(lineIdx)
    {
      var c, r := col, row;
      var colDiff: u16 := 0;
      var prevLen: u64 := 0;
      var beforeCol := display.shadowCol;
      if 0 == r && display.start > 0 {
        display.start := display.start - 1;
        display.end := Sub64(display.end, 1);
        if display.start >= |file| {
          status := Panicked;
          return;
        }
        if Sub64(lineIdx, 1) >= |file| {
          status := Panicked;
          return;
        }
        prevLen := SaturatingSub(StrippedLength(file[Sub64(lineIdx, 1)]), 1);
        if c > AsU16(prevLen) {
          colDiff := c - AsU16(prevLen);
        }
      } else if 0 != r {
        row := MoveUp(row, 1);
        if Sub64(lineIdx, 1) >= |file| {
          status := Panicked;
          return;
        }
        prevLen := SaturatingSub(StrippedLength(file[Sub64(lineIdx, 1)]), 1);
        if c > AsU16(prevLen) {
          colDiff := c - AsU16(prevLen);
        }
      }
      if colDiff > 0 {
        col := MoveLeft(col, colDiff);
      }
      var correction := RequiredCorrection(c, beforeCol, Add64(prevLen, 1));
      if correction > 0 {
        col := MoveRight(col, ShadowStep(correction, c), windowCols);
      }
    }

    /** What `h` / Left leaves behind: one column left, which also becomes the
        sticky column; at column 0 nothing changes. The row, the range and the
        loop's status stay. */
    twostate predicate KeyLeftEffect()
      requires old(Valid())
      reads this, display
    {
      row == old(row) && status == old(status)
      && display.start == old(display.start) && display.end == old(display.end)
      && display.cursorPos == old(display.cursorPos)
      && (old(col) > 0 ==> col == old(col) - 1 && display.shadowCol == col as int)
      && (old(col) == 0 ==> col == 0 && display.shadowCol == old(display.shadowCol))
    }

    /** `h` / Left. */
    method KeyLeft()
      requires Valid()
      modifies this`col, display
      ensures Valid()
      ensures KeyLeftEffect()
    {
      if col > 0 {
        display.shadowCol := col - 1;
        col := MoveLeft(col, 1);
      }
    }

    /** What `l` / Right on a line of `lineLen` bytes leaves behind: one column
        right when the guard `line_len - 1 > col` holds in `u16`, with the
        sticky column set to the column after the old one; otherwise nothing
        changes. The row, the range and the loop's status stay. */
    twostate predicate KeyRightEffect(lineLen: u64)
      requires old(Valid())
      reads this, display
    {
      row == old(row) && status == old(status)
      && display.start == old(display.start) && display.end == old(display.end)
      && display.cursorPos == old(display.cursorPos)
      && (RightAllowed(lineLen, old(col)) ==>
            col == MoveRight(old(col), 1, windowCols) && display.shadowCol == old(col) + 1)
      && (!RightAllowed(lineLen, old(col)) ==>
            col == old(col) && display.shadowCol == old(display.shadowCol))
    }

    /** `l` / Right on a line of `lineLen` bytes. */
    method KeyRight(lineLen: u64)
      requires Valid()
      modifies this`col, display
      ensures Valid()
      ensures KeyRightEffect(lineLen)
    {
      if Sub16(AsU16(lineLen), 1) > col {
        display.shadowCol := col + 1;
        col := MoveRight(col, 1, windowCols);
      }
    }

    /** What Ctrl-u leaves behind: the range scrolled back by up to 30 lines,
        the cursor moved up by what is left of the 30, the column, the sticky
        column and the loop's status unchanged. */
    twostate predicate HalfPageUpEffect()
      requires old(Valid())
      reads this, display
    {
      (display.start, display.end) == HalfPageUpView(old(display.start), old(display.end), windowRows)
      && row == HalfPageUpRow(old(row), ScrollOffsetUp(old(display.start)))
      && col == old(col) && status == old(status)
      && display.shadowCol == old(display.shadowCol) && display.cursorPos == old(display.cursorPos)
    }

    /** Ctrl-u. */
    method HalfPageUp()
      requires Valid()
      modifies this`row, display
      ensures Valid()
      ensures HalfPageUpEffect()
    {
      var scrollOffset: u16 := CURSOR_JUMP_OFFSET;
      var lineStart: u64;
      if display.start <= CURSOR_JUMP_OFFSET as int {
        scrollOffset := if display.start == 0 then 0 else CURSOR_JUMP_OFFSET - display.start;
        lineStart := 1;
      } else {
        lineStart := display.start - CURSOR_JUMP_OFFSET + 1;
      }
      if scrollOffset > 0 {
        display.start := lineStart - 1;
        display.end := Sub64(Sub64(Add64(lineStart, windowRows), STATUS_LINE_OFFSET), 2);
      }
      var jumpOffset := CURSOR_JUMP_OFFSET - scrollOffset;
      if jumpOffset > 0 {
        if jumpOffset > row {
          jumpOffset := jumpOffset - row;
        }
        if jumpOffset > 0 {
          row := MoveUp(row, jumpOffset);
        }
      }
    }

    /** What Ctrl-d on line `lineIdx` leaves behind: the range scrolled forward
        by up to 30 lines, the cursor moved down by what is left of the 30, the
        column, the sticky column and the loop's status unchanged. */
    twostate predicate HalfPageDownEffect(lineIdx: u64)
      requires old(Valid())
      reads this, display
    {
      (display.start, display.end)
        == HalfPageDownView(lineIdx, old(row), old(display.start), old(display.end), lineCount, windowRows)
      && row == HalfPageDownRow(display.start, old(row),
                                HalfPageDownPlan(lineIdx, old(row), old(display.end), lineCount, windowRows).0,
                                HalfPageDownPlan(lineIdx, old(row), old(display.end), lineCount, windowRows).1,
                                lineCount, windowRows)
      && col == old(col) && status == old(status)
      && display.shadowCol == old(display.shadowCol) && display.cursorPos == old(display.cursorPos)
    }

    /** Ctrl-d on line `lineIdx`. */
    method HalfPageDown(lineIdx: u64)
      requires Valid()
      modifies this`row, display
      ensures Valid()
      ensures HalfPageDownEffect(lineIdx)
    {
      var scrollOffset: u16 := CURSOR_JUMP_OFFSET;
      var lineEnd := Sub64(Sub64(Add64(Add64(lineIdx, CURSOR_JUMP_OFFSET), windowRows), STATUS_LINE_OFFSET), row);
      if lineEnd > Sub64(lineCount, 1) {
        scrollOffset := Sub16(CURSOR_JUMP_OFFSET, AsU16(Sub64(Sub64(lineEnd, lineCount), 1)));
        lineEnd := Sub64(lineCount, 1);
      }
      if lineEnd == Sub64(lineCount, 1) && display.end == lineEnd {
        scrollOffset := 0;
      }
      if scrollOffset > 0 {
        var lineStartNum := Add64(lineIdx, scrollOffset);
        display.start := Sub64(lineStartNum, 1);
        display.end := lineEnd;
      }
      var jumpOffset := Sub16(CURSOR_JUMP_OFFSET, scrollOffset);
      if jumpOffset > 0 {
        var checkOffset := Add16(Add16(AsU16(display.start), row), jumpOffset);
        if checkOffset > AsU16(lineCount) {
          jumpOffset := Sub16(Sub16(Sub16(AsU16(lineCount), AsU16(display.start)), row), 1);
        } else if checkOffset > AsU16(lineEnd) {
          jumpOffset := Sub16(Sub16(Sub16(windowRows, row), STATUS_LINE_OFFSET), 1);
        }
        if jumpOffset > 0 {
          row := MoveDown(row, jumpOffset, windowRows);
        }
      }
    }

    /** What `/` leaves behind: search mode on, the cursor remembered, and the
        cursor after the `/` of the prompt below the status line. */
    twostate predicate BeginSearchEffect()
      requires old(Valid())
      reads this, display
    {
      searchMode && display.cursorPos == (old(row) as u64, old(col) as u64)
      && row == Clamp(Add16(windowRows, 1), windowRows) && col == MoveRight(0, 1, windowCols)
      && status == old(status)
      && display.start == old(display.start) && display.end == old(display.end)
      && display.shadowCol == old(display.shadowCol)
    }

    /** `/`. */
    method BeginSearch()
      requires Valid()
      modifies this`searchMode, this`row, this`col, display
      ensures Valid()
      ensures BeginSearchEffect()
    {
      searchMode := true;
      display.cursorPos := (row as u64, col as u64);
      row := Clamp(Add16(windowRows, 1), windowRows);
      col := 0;
      col := MoveRight(col, 1, windowCols);
    }

    /** What `n` / `N` on line `lineIdx` leaves behind: with a selection,
        `lookup` is asked from two lines further on, and on an answer the match's
        line is shown at the top with the cursor in its column on row 0. Without
        a selection nothing changes. The loop's status stays. */
    twostate predicate JumpToMatchEffect(lookup: Lookup, lineIdx: u64)
      requires old(Valid())
      reads this, display, search
    {
      status == old(status)
      && search.word == old(search.word) && search.wordVec == old(search.wordVec)
      && search.lines == old(search.lines)
      && display.shadowCol == old(display.shadowCol) && display.cursorPos == old(display.cursorPos)
      && (!old(search.ExistsMatch()) ==>
            search.nowIdx == old(search.nowIdx) && display.start == old(display.start)
            && display.end == old(display.end) && row == old(row) && col == old(col))
      && (old(search.ExistsMatch()) ==>
            var answer := lookup(old(search.lines), old(search.nowIdx), (Add64(lineIdx, 2), old(display.cursorPos.1)));
            search.nowIdx == answer.index
            && (answer.found.Some? ==>
                  display.start == Sub64(answer.found.value.0, 1) && display.end == display.start
                  && row == 0 && col == Clamp(AsU16(answer.found.value.1), windowCols))
            && (answer.found.None? ==>
                  display.start == old(display.start) && display.end == old(display.end)
                  && row == old(row) && col == old(col)))
    }

    /** `n` / `N` on line `lineIdx`. */
    method JumpToMatch(lookup: Lookup, lineIdx: u64)
      requires Valid() && ValidLookup(lookup)
      modifies this`row, this`col, display, search
      ensures Valid()
      ensures JumpToMatchEffect(lookup, lineIdx)
    {
      if search.ExistsMatch() {
        var nowRow := Add64(lineIdx, 2);
        var answer := lookup(search.lines, search.nowIdx, (nowRow, display.cursorPos.1));
        search.nowIdx := answer.index;
        if answer.found.Some? {
          var (lnum, lcol) := answer.found.value;
          display.start := Sub64(lnum, 1);
          display.end := Sub64(lnum, 1);
          row := 0;
          col := Clamp(AsU16(lcol), windowCols);
        }
      }
    }

    /** Nothing that a key can change has changed. */
    twostate predicate NothingChanged()
      requires old(Valid())
      reads this, display, search
    {
      status == old(status) && searchMode == old(searchMode) && row == old(row) && col == old(col)
      && display.start == old(display.start) && display.end == old(display.end)
      && display.cursorPos == old(display.cursorPos) && display.shadowCol == old(display.shadowCol)
      && search.nowIdx == old(search.nowIdx)
    }

    /** What `handler_display_input_mode` leaves behind for the key `ev` on line
        `lineIdx`: a panic when that line does not exist; otherwise the effect
        of the handler the key is routed to, and no change at all for any other
        key. Ctrl-u and Ctrl-d need exactly the Control modifier; the other keys
        ignore modifiers. The query, the typed characters and the matches stay,
        and search mode is entered by `/` alone. */
    twostate predicate DisplayInputEffect(ev: Event, lineIdx: u64)
      requires old(Valid())
      reads this, display, search
    {
      search.word == old(search.word) && search.wordVec == old(search.wordVec)
      && search.lines == old(search.lines)
      && (searchMode <==> lineIdx < |file| && DisplayAction(ev) == OpenPrompt)
      && (DisplayAction(ev) !in {NextMatch, PreviousMatch} ==> search.nowIdx == old(search.nowIdx))
      && (lineIdx >= |file| ==> status == Panicked)
      && (lineIdx < |file| ==>
            match DisplayAction(ev)
            case CursorDown => KeyDownEffect(lineIdx)
            case CursorUp => KeyUpEffect(lineIdx)
            case CursorLeft => KeyLeftEffect()
            case CursorRight => KeyRightEffect(StrippedLength(file[lineIdx]))
            case HalfPageBack => HalfPageUpEffect()
            case HalfPageForward => HalfPageDownEffect(lineIdx)
            case OpenPrompt => BeginSearchEffect()
            case NextMatch => JumpToMatchEffect(nearLine, lineIdx)
            case PreviousMatch => JumpToMatchEffect(nearLineBefore, lineIdx)
            case NoAction => NothingChanged())
    }

    /** `handler_display_input_mode` for the key `ev` on line `lineIdx`: it
        reads that line first, then routes the key. */
    method HandleDisplayInput(ev: Event, lineIdx: u64)
      requires Valid() && status.Running? && !searchMode
      modifies this, display, search
      ensures Valid()
      ensures DisplayInputEffect(ev, lineIdx)
      ensures status != Exited && status != Failed
    {
      if lineIdx >= |file| {
        status := Panicked;
        return;
      }
      var lineLen: u64 := StrippedLength(file[lineIdx]);
      match DisplayAction(ev) {
        case CursorDown => KeyDown(lineIdx);
        case CursorUp => KeyUp(lineIdx);
        case CursorLeft => KeyLeft();
        case CursorRight => KeyRight(lineLen);
        case HalfPageBack => HalfPageUp();
        case HalfPageForward => HalfPageDown(lineIdx);
        case OpenPrompt => BeginSearch();
        case NextMatch => JumpToMatch(nearLine, lineIdx);
        case PreviousMatch => JumpToMatch(nearLineBefore, lineIdx);
        case NoAction =>
      }
    }

    /** Enter at the search prompt: the typed characters become the query (after
        `reset` has cleared the previous matches and selection); a non-empty
        query runs the matcher, and on a lookup answer the match's line becomes
        the top of the range. Search mode ends with the cursor on row 0. */
    twostate predicate CommitSearchEffect()
      requires old(Valid())
      reads this, display, search
    {
      search.word == old(search.wordVec) && search.wordVec == []
      && display.shadowCol == old(display.shadowCol) && display.cursorPos == old(display.cursorPos)
      && (status.Running? ==> !searchMode && row == 0)
      && (old(search.wordVec) == [] ==>
            status.Running? && search.lines == [] && search.nowIdx == None
            && display.start == old(display.start) && display.end == old(display.end)
            && col == Clamp(AsU16(old(display.cursorPos.1)), windowCols))
      && (old(search.wordVec) != [] ==>
            match matcher(search.filename, old(search.wordVec))
            case InvalidPattern => status == Panicked
            case IoError => status == Failed
            case Found(result) =>
              status.Running? && search.lines == result
              && (result == [] ==>
                    search.nowIdx == None && display.start == old(display.start) && display.end == old(display.end)
                    && col == Clamp(AsU16(old(display.cursorPos.1)), windowCols))
              && (result != [] ==>
                    var answer := nearLine(result, None,
                                           (Add64(old(display.start), old(display.cursorPos.0)), old(display.cursorPos.1)));
                    search.nowIdx == answer.index
                    && (answer.found.Some? ==>
                          display.start == Sub64(answer.found.value.0, 1) && display.end == display.start
                          && col == Clamp(AsU16(answer.found.value.1), windowCols))
                    && (answer.found.None? ==>
                          display.start == old(display.start) && display.end == old(display.end)
                          && col == Clamp(AsU16(old(display.cursorPos.1)), windowCols))))
    }

    /** Enter at the search prompt. */
    method CommitSearch()
      requires Valid() && status.Running? && searchMode
      modifies this`searchMode, this`row, this`col, this`status, display, search
      ensures Valid()
      ensures CommitSearchEffect()
    {
      var wordVec := search.wordVec;
      search.Reset();
      var lcol := display.cursorPos.1;
      if wordVec != [] {
        search.word := wordVec;
        var outcome := matcher(search.filename, search.word);
        match outcome {
          case InvalidPattern =>
            status := Panicked;
            return;
          case IoError =>
            status := Failed;
            return;
          case Found(result) =>
            if result != [] {
              search.lines := result;
              var nowRow := Add64(display.start, display.cursorPos.0);
              var answer := nearLine(search.lines, search.nowIdx, (nowRow, display.cursorPos.1));
              search.nowIdx := answer.index;
              if answer.found.Some? {
                var (lnum, l) := answer.found.value;
                lcol := l;
                display.start := Sub64(lnum, 1);
                display.end := Sub64(lnum, 1);
              }
            }
        }
      }
      searchMode := false;
      row := 0;
      col := Clamp(AsU16(lcol), windowCols);
      search.wordVec := [];
    }

    /** `handler_search_word_input_mode`: Esc leaves the prompt and puts the
        cursor back where `/` was pressed; Backspace and Delete drop the last
        typed character, if any; a character is typed; Enter commits. */
    twostate predicate SearchInputEffect(ev: Event)
      requires old(Valid())
      reads this, display, search
    {
      (ev.Key? && ev.code == Esc ==>
            status.Running? && !searchMode && search.wordVec == []
            && row == Clamp(AsU16(display.cursorPos.0), windowRows) && col == Clamp(AsU16(display.cursorPos.1), windowCols)
            && search.word == old(search.word) && search.lines == old(search.lines) && search.nowIdx == old(search.nowIdx))
      && (ev.Key? && (ev.code == Backspace || ev.code == Delete) ==>
            status.Running? && searchMode && row == old(row)
            && (if old(search.wordVec) == [] then search.wordVec == [] && col == old(col)
                else search.wordVec == old(search.wordVec)[..|old(search.wordVec)| - 1] && col == MoveLeft(old(col), 1)))
      && (ev.Key? && ev.code.Char? ==>
            status.Running? && searchMode && row == old(row)
            && search.wordVec == old(search.wordVec) + [ev.code.c] && col == MoveRight(old(col), 1, windowCols))
      && (ev.Key? && ev.code == Enter ==> CommitSearchEffect())
      && (!(ev.Key? && ev.code == Enter) ==>
            status.Running? && search.word == old(search.word) && search.lines == old(search.lines)
            && search.nowIdx == old(search.nowIdx))
      && (!(ev.Key? && (ev.code.Char? || ev.code in {Esc, Backspace, Delete, Enter})) ==>
            status.Running? && searchMode && row == old(row) && col == old(col) && search.wordVec == old(search.wordVec))
      && (!(ev.Key? && ev.code == Enter) ==> display.start == old(display.start) && display.end == old(display.end))
      && display.shadowCol == old(display.shadowCol) && display.cursorPos == old(display.cursorPos)
    }

    /** `handler_search_word_input_mode` for the key `ev`. */
    method HandleSearchWordInput(ev: Event)
      requires Valid() && status.Running? && searchMode
      modifies this`searchMode, this`row, this`col, this`status, display, search
      ensures Valid()
      ensures SearchInputEffect(ev)
    {
      match ev {
        case Key(Esc, _) =>
          searchMode := false;
          row := Clamp(AsU16(display.cursorPos.0), windowRows);
          col := Clamp(AsU16(display.cursorPos.1), windowCols);
          search.wordVec := [];
        case Key(Backspace, _) => DropTyped();
        case Key(Delete, _) => DropTyped();
        case Key(Enter, _) => CommitSearch();
        case Key(Char(c), _) =>
          search.wordVec := search.wordVec + [c];
          col := MoveRight(col, 1, windowCols);
        case _ =>
      }
    }

    /** Backspace / Delete at the prompt: pop the last typed character and move
        left over it; with nothing typed, nothing changes. */
    method DropTyped()
      requires Valid()
      modifies this`col, search
      ensures Valid()
      ensures search.word == old(search.word) && search.lines == old(search.lines) && search.nowIdx == old(search.nowIdx)
      ensures old(search.wordVec) == [] ==> search.wordVec == [] && col == old(col)
      ensures old(search.wordVec) != [] ==>
        search.wordVec == old(search.wordVec)[..|old(search.wordVec)| - 1] && col == MoveLeft(old(col), 1)
    {
      if search.wordVec != [] {
        search.wordVec := search.wordVec[..|search.wordVec| - 1];
        col := MoveLeft(col, 1);
      }
    }

    /** One turn of the loop of `less_loop`: the key goes to the prompt in search
        mode; in normal mode Esc ends the loop and any other key goes to the
        normal handler for the cursor's line, `start + row`. */
    method Step(ev: Event)
      requires Valid() && status.Running?
      modifies this, display, search
      ensures Valid()
      ensures !old(searchMode) && ev.Key? && ev.code == Esc ==>
        status == Exited && !searchMode && row == old(row) && col == old(col)
        && display.start == old(display.start) && display.end == old(display.end)
        && search.wordVec == old(search.wordVec) && search.nowIdx == old(search.nowIdx)
      ensures old(searchMode) ==> SearchInputEffect(ev)
      ensures !old(searchMode) && !(ev.Key? && ev.code == Esc) ==> DisplayInputEffect(ev, old(CursorLine()))
    {
      if searchMode {
        HandleSearchWordInput(ev);
      } else {
        if ev.Key? && ev.code == Esc {
          status := Exited;
          return;
        }
        HandleDisplayInput(ev, CursorLine());
      }
    }
  }
}
