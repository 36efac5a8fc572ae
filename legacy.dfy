/** The older, self-contained pager loop of `src/main.rs`: its own search
    state (whose `get_near_line` compares the other way round), its own
    `DisplayLines` without a sticky column, and a key loop that reads the
    cursor's line on every turn, in both modes. */
module Legacy {
  import opened Base
  import opened Terminal
  import opened Line
  import opened Search

  const STATUS_LINE_OFFSET: u16 := 2
  const DISPLAY_BOTTOM_LINE_OFFSET: u16 := 3
  const HALF_PAGE: u16 := 20

  /** The index this `get_near_line(p)` selects: the first match whose line
      number is at most `p`. */
  function FirstAtOrBefore(lines: seq<Match>, p: u64): (r: Option<nat>)
    ensures r.Some? ==> r.value < |lines| && lines[r.value].0 <= p
    ensures r.Some? ==> forall j :: 0 <= j < r.value ==> lines[j].0 > p
    ensures r.None? ==> forall j :: 0 <= j < |lines| ==> lines[j].0 > p
  {
    if lines == [] then None
    else if p >= lines[0].0 then Some(0)
    else match FirstAtOrBefore(lines[1..], p)
      case None => None
      case Some(k) => Some(k + 1)
  }

  /** On matches sorted by line, this lookup can only ever select the first
      match: it answers index 0 as soon as the first match lies at or above
      `p`, and nothing otherwise. */
  lemma FirstAtOrBeforeOnlyFirst(lines: seq<Match>, p: u64)
    requires SortedByLine(lines)
    ensures FirstAtOrBefore(lines, p) == if lines != [] && lines[0].0 <= p then Some(0) else None
  {
  }

  /** The arm of this loop's normal-mode `match` a key reaches. */
  datatype Action =
    | CursorLeft | CursorDown | CursorUp | CursorRight
    | HalfPageBack | HalfPageForward | OpenPrompt | StepMatch | Quit | NoAction

  /** The key table of the normal mode: letters, arrows and Esc ignore the
      modifiers, Ctrl-u and Ctrl-d need the Control modifier, and every other
      key reaches no arm. */
  function NormalAction(ev: Event): Action {
    match ev
    case Key(Char('h'), _) => CursorLeft
    case Key(Left, _) => CursorLeft
    case Key(Char('j'), _) => CursorDown
    case Key(Down, _) => CursorDown
    case Key(Char('k'), _) => CursorUp
    case Key(Up, _) => CursorUp
    case Key(Char('l'), _) => CursorRight
    case Key(Right, _) => CursorRight
    case Key(Char('u'), true) => HalfPageBack
    case Key(Char('d'), true) => HalfPageForward
    case Key(Char('/'), _) => OpenPrompt
    case Key(Char('n'), _) => StepMatch
    case Key(Esc, _) => Quit
    case _ => NoAction
  }

  /** The `l` guard `line_len as u16 - 1 > col`. */
  predicate RightGuard(lineLen: u64, col: u16) {
    Sub16(AsU16(lineLen), 1) > col
  }

  /** The first screen: the loop stops on the last text row or on index
      `line_count as u16`, whichever comes first. */
  method InitialDisplayEnd(fileLen: nat, lineCount: u64, rows: u16) returns (end: u64, inRange: bool)
    requires rows >= 3
    ensures inRange <==> Min(rows - DISPLAY_BOTTOM_LINE_OFFSET, AsU16(lineCount)) < fileLen
    ensures inRange ==> end == Min(rows - DISPLAY_BOTTOM_LINE_OFFSET, AsU16(lineCount))
  {
    var last := AsU16(lineCount);
    end := 0;
    var idx: u16 := 0;
    while idx < rows - STATUS_LINE_OFFSET
      invariant idx <= rows - STATUS_LINE_OFFSET && idx <= last
      invariant idx > 0 ==> end == idx - 1 && idx - 1 < fileLen
    {
      end := idx;
      if idx >= fileLen {
        return end, false;
      }
      if idx >= last {
        return end, true;
      }
      idx := idx + 1;
    }
    inRange := true;
  }

  /** Every index the repaint after a jump to line `lnum` reads. */
  ghost predicate RepaintInRange(lnum: u64, fileLen: nat, lineCount: u64, rows: u16)
    requires rows >= 3
  {
    forall i :: 0 <= i <= Min(rows - DISPLAY_BOTTOM_LINE_OFFSET, Sub64(lineCount, 1)) ==>
      Sub64(Add64(lnum, i), 1) < fileLen
  }

  /** The repaint loop after a jump (Enter and `n`): a screen of lines from
      line `lnum` on, stopping early at index `line_count - 1`; it panics on
      the first index that is not a line of the rope. */
  method RepaintLines(lnum: u64, fileLen: nat, lineCount: u64, rows: u16) returns (ok: bool)
    requires rows >= 3
    ensures ok <==> RepaintInRange(lnum, fileLen, lineCount, rows)
  {
    var idx: u16 := 0;
    while idx < rows - STATUS_LINE_OFFSET
      invariant idx <= rows - STATUS_LINE_OFFSET
      invariant idx <= Sub64(lineCount, 1)
      invariant forall i :: 0 <= i < idx ==> Sub64(Add64(lnum, i), 1) < fileLen
    {
      if Sub64(Add64(lnum, idx), 1) >= fileLen {
        assert idx <= Min(rows - DISPLAY_BOTTOM_LINE_OFFSET, Sub64(lineCount, 1));
        return false;
      }
      if idx >= Sub64(lineCount, 1) {
        return true;
      }
      idx := idx + 1;
    }
    ok := true;
  }

  /** A jump to a match on one of the last `rows - 4` lines of a file panics:
      with 100 lines and a 24-row window, repainting from line 100 reads line
      index 101. */
  lemma RepaintNearEndPanics()
    ensures !RepaintInRange(100, 101, 100, 24)
  {
    assert Sub64(Add64(100, 2), 1) >= 101;
  }

  /** A jump whose screenful lies inside the file repaints without a panic. */
  lemma RepaintInsideFile(lnum: u64, fileLen: nat, lineCount: u64, rows: u16)
    requires rows >= 3 && lineCount >= 1
    requires 1 <= lnum && lnum - 1 + (rows - DISPLAY_BOTTOM_LINE_OFFSET) < fileLen
    requires lnum + rows < TWO_64
    ensures RepaintInRange(lnum, fileLen, lineCount, rows)
  {
    forall i | 0 <= i <= Min(rows - DISPLAY_BOTTOM_LINE_OFFSET, Sub64(lineCount, 1))
      ensures Sub64(Add64(lnum, i), 1) < fileLen
    {
      assert Add64(lnum, i) == lnum + i;
      assert Sub64(lnum + i, 1) == lnum + i - 1;
    }
  }

  /** On a file at least as long as the screen, the repaint after a jump to
      line `lnum` stays inside the rope exactly when `lnum` is not one of the
      last `rows - 4` lines: it reads `rows - 2` lines from `lnum` on. */
  lemma RepaintPanicsOnLastLines(lnum: u64, lineCount: u64, rows: u16)
    requires rows >= 3 && rows - DISPLAY_BOTTOM_LINE_OFFSET <= lineCount - 1
    requires 1 <= lnum && lnum + rows < TWO_64
    ensures RepaintInRange(lnum, lineCount + 1, lineCount, rows) <==> lnum + (rows - 4) <= lineCount
  {
    var last := rows - DISPLAY_BOTTOM_LINE_OFFSET;
    assert Sub64(lineCount, 1) == lineCount - 1;
    assert Add64(lnum, last) == lnum + last;
    assert Sub64(lnum + last, 1) == lnum + last - 1;
    if lnum + (rows - 4) <= lineCount {
      RepaintInsideFile(lnum, lineCount + 1, lineCount, rows);
    }
  }

  /** This `DisplayLines`: the visible range and the cursor saved on `/`. */
  class DisplayLines {
    var start: u64
    var end: u64
    var cursorPos: (u64, u64)

    constructor ()
      ensures start == 0 && end == 0 && cursorPos == (0, 0)
    {
      start, end, cursorPos := 0, 0, (0, 0);
    }
  }

  /** This `SearchResult`: the query, the matches and the selection; the typed
      characters live in the loop (`search_word_vec`). */
  class SearchResult {
    var word: string
    var lines: seq<Match>
    var nowIdx: Option<nat>

    ghost predicate Valid()
      reads this
    {
      nowIdx.Some? ==> nowIdx.value < |lines|
    }

    /** The literal `SearchResult { .. }` of `less_loop`. */
    constructor ()
      ensures word == "" && lines == [] && nowIdx == None
      ensures Valid()
    {
      word, lines, nowIdx := "", [], None;
    }

    /** `get_near_line`: scans in order and selects the first match at or
        above line `nowPosition`; with no such match nothing changes. */
    method GetNearLine(nowPosition: u64) returns (pos: Option<Match>)
      modifies this
      ensures word == old(word) && lines == old(lines)
      ensures match FirstAtOrBefore(lines, nowPosition)
        case Some(k) => pos == Some(lines[k]) && nowIdx == Some(k)
        case None => pos == None && nowIdx == old(nowIdx)
      ensures old(Valid()) ==> Valid()
    {
      pos := None;
      var count := |lines|;
      var idx := 0;
      while idx < count
        invariant 0 <= idx <= count
        invariant forall j :: 0 <= j < idx ==> lines[j].0 > nowPosition
        invariant pos == None && nowIdx == old(nowIdx)
      {
        var (lineNum, _) := lines[idx];
        if nowPosition >= lineNum {
          pos := Some(lines[idx]);
          nowIdx := Some(idx);
          break;
        }
        idx := idx + 1;
      }
    }

    /** `next`: advances the selection cyclically; with no selection, or no
        matches, nothing changes. */
    method Next() returns (r: Option<Match>)
      modifies this
      ensures word == old(word) && lines == old(lines)
      ensures old(nowIdx).None? || lines == [] ==> r == None && nowIdx == old(nowIdx)
      ensures old(nowIdx).Some? && lines != [] ==>
        var k := NextIndex(old(nowIdx).value, |lines|);
        nowIdx == Some(k) && r == Some(lines[k])
      ensures old(Valid()) ==> Valid()
    {
      var resultCount := |lines|;
      match nowIdx {
        case Some(n) =>
          if resultCount > 0 {
            var updateN := if resultCount > n + 1 then n + 1 else 0;
            nowIdx := Some(updateN);
            r := Some(lines[updateN]);
          } else {
            r := None;
          }
        case None =>
          r := None;
      }
    }

    /** `reset`: forgets the query, the matches and the selection. */
    method Reset()
      modifies this
      ensures word == "" && lines == [] && nowIdx == None
      ensures Valid()
    {
      word := "";
      lines := [];
      nowIdx := None;
    }
  }

  /** The state of this `less_loop`. */
  class Pager {
    const filename: string
    const file: seq<RopeLine>
    const lineCount: u64
    const windowRows: u16
    const windowCols: u16
    const matcher: (string, string) -> SearchOutcome
    const display: DisplayLines
    const search: SearchResult
    var searchMode: bool
    var searchWordVec: seq<char>
    var row: u16
    var col: u16
    var status: Status

    ghost predicate Valid()
      reads this, display, search
    {
      FileFits(file) && lineCount == |file| - 1
      && windowRows >= 3 && windowCols >= 1
      && row < windowRows && col < windowCols
      && search.Valid()
    }

    /** The set-up of `less_loop`; unlike the newer loop, its first screen
        never reads past the rope. */
    constructor (filename: string, file: seq<RopeLine>, windowRows: u16, windowCols: u16,
                 matcher: (string, string) -> SearchOutcome)
      requires FileFits(file) && windowRows >= 3 && windowCols >= 1
      ensures Valid() && fresh(display) && fresh(search)
      ensures this.filename == filename && this.file == file && lineCount == |file| - 1
      ensures this.windowRows == windowRows && this.windowCols == windowCols && this.matcher == matcher
      ensures search.word == "" && search.lines == [] && search.nowIdx == None
      ensures display.start == 0 && display.cursorPos == (0, 0)
      ensures display.end == Min(windowRows - DISPLAY_BOTTOM_LINE_OFFSET, AsU16(|file| - 1))
      ensures !searchMode && searchWordVec == [] && row == 0 && col == 0 && status == Running
    {
      this.filename := filename;
      this.file := file;
      lineCount := |file| - 1;
      this.windowRows := windowRows;
      this.windowCols := windowCols;
      this.matcher := matcher;
      var d := new DisplayLines();
      var end, inRange := InitialDisplayEnd(|file|, |file| - 1, windowRows);
      d.end := end;
      display := d;
      search := new SearchResult();
      searchMode := false;
      searchWordVec := [];
      row, col := 0, 0;
      status := Running;
    }

    /** The line index of the cursor, `start + 1 + row - 1`. */
    function CursorLine(): u64
      reads this, display
    {
      Sub64(Add64(Add64(display.start, 1), row), 1)
    }

    /** `j` scrolls when the cursor is on the bottom text row and the range
        does not end on the line before `line_count`. */
    ghost predicate ScrollsDown()
      reads this, display
    {
      row as int == windowRows as int - DISPLAY_BOTTOM_LINE_OFFSET as int && lineCount != Add64(display.end, 1)
    }

    /** Otherwise `j` moves the cursor down, unless the row after it is `line_count`. */
    ghost predicate MovesDown()
      reads this, display
    {
      row as int != windowRows as int - DISPLAY_BOTTOM_LINE_OFFSET as int && lineCount != Add16(row, 1)
    }

    /** `j` / Down: scroll or move down as in the newer loop, but the column
        is only pulled back onto the next line, never restored. */
    twostate predicate KeyDownEffect(lineIdx: u64)
      requires old(Valid())
      reads this, display
    {
      display.cursorPos == old(display.cursorPos)
      && (old(ScrollsDown()) ==>
            display.start == Add64(old(display.start), 1) && display.end == Add64(old(display.end), 1)
            && row == old(row)
            && status == if Add64(old(display.end), 1) < |file| && Add64(lineIdx, 1) < |file| then Running else Panicked)
      && (!old(ScrollsDown()) && old(MovesDown()) ==>
            display.start == old(display.start) && display.end == old(display.end)
            && row == MoveDown(old(row), 1, windowRows)
            && status == if Add64(lineIdx, 1) < |file| then Running else Panicked)
      && (!old(ScrollsDown()) && !old(MovesDown()) ==>
            display.start == old(display.start) && display.end == old(display.end)
            && row == old(row) && col == old(col) && status == old(status))
      && ((old(ScrollsDown()) || old(MovesDown())) ==>
            if status.Running? then
              Add64(lineIdx, 1) < |file|
              && var len := StrippedLength(file[Add64(lineIdx, 1)]);
              col as int == Min(old(col), AsU16(SaturatingSub(len, 1)))
              && (len < TWO_16 ==> col as int <= Max(len, 1) - 1)
            else col == old(col))
    }

    /** `j` / Down on line `lineIdx`. */
    method KeyDown(lineIdx: u64)
      requires Valid() && status.Running?
      modifies this`row, this`col, this`status, display
      ensures Valid()
      ensures KeyDownEffect(lineIdx)
    {
      var c, r := col, row;
      var colDiff: u16 := 0;
      if windowRows - DISPLAY_BOTTOM_LINE_OFFSET == r && lineCount != Add64(display.end, 1) {
        display.start := Add64(display.start, 1);
        display.end := Add64(display.end, 1);
        if display.end >= |file| {
          status := Panicked;
          return;
        }
        if Add64(lineIdx, 1) >= |file| {
          status := Panicked;
          return;
        }
        var lineLen := SaturatingSub(StrippedLength(file[Add64(lineIdx, 1)]), 1);
        if c > AsU16(lineLen) {
          colDiff := c - AsU16(lineLen);
        }
      } else if windowRows - DISPLAY_BOTTOM_LINE_OFFSET != r && lineCount != Add16(r, 1) {
        row := MoveDown(row, 1, windowRows);
        if Add64(lineIdx, 1) >= |file| {
          status := Panicked;
          return;
        }
        var lineLen := SaturatingSub(StrippedLength(file[Add64(lineIdx, 1)]), 1);
        if c > AsU16(lineLen) {
          colDiff := c - AsU16(lineLen);
        }
      }
      if colDiff > 0 {
        col := MoveLeft(col, colDiff);
      }
    }

    /** `k` / Up: the mirror image of `j`; at the top of the file on row 0
        nothing changes. */
    twostate predicate KeyUpEffect(lineIdx: u64)
      requires old(Valid())
      reads this, display
    {
      display.cursorPos == old(display.cursorPos)
      && (old(row) == 0 && old(display.start) > 0 ==>
            display.start == old(display.start) - 1 && display.end == Sub64(old(display.end), 1)
            && row == old(row)
            && status == if display.start < |file| && Sub64(lineIdx, 1) < |file| then Running else Panicked)
      && (old(row) != 0 ==>
            display.start == old(display.start) && display.end == old(display.end)
            && row == old(row) - 1
            && status == if Sub64(lineIdx, 1) < |file| then Running else Panicked)
      && (old(row) == 0 && old(display.start) == 0 ==>
            display.start == old(display.start) && display.end == old(display.end)
            && row == old(row) && col == old(col) && status == old(status))
      && (status.Running? && (old(row) != 0 || old(display.start) > 0) ==>
            Sub64(lineIdx, 1) < |file|
            && var len := StrippedLength(file[Sub64(lineIdx, 1)]);
            col as int == Min(old(col), AsU16(SaturatingSub(len, 1)))
            && (len < TWO_16 ==> col as int <= Max(len, 1) - 1))
      && (status.Panicked? ==> col == old(col))
    }

    /** `k` / Up on line `lineIdx`. */
    method KeyUp(lineIdx: u64)
      requires Valid() && status.Running?
      modifies this`row, this`col, this`status, display
      ensures Valid()
      ensures KeyUpEffect(lineIdx)
    {
      var c, r := col, row;
      var colDiff: u16 := 0;
      if 0 == r && display.start > 0 {
        display.start := display.start - 1;
        display.end := Sub64(display.end, 1);
        if display.start >= |file| {
          status := Panicked;
          return;
        }
        if Sub64(lineIdx, 1) >= |file| {
          status := Panicked;
          return;
        }
        var lineLen := SaturatingSub(StrippedLength(file[Sub64(lineIdx, 1)]), 1);
        if c > AsU16(lineLen) {
          colDiff := c - AsU16(lineLen);
        }
      } else if 0 != r {
        row := MoveUp(row, 1);
        if Sub64(lineIdx, 1) >= |file| {
          status := Panicked;
          return;
        }
        var lineLen := SaturatingSub(StrippedLength(file[Sub64(lineIdx, 1)]), 1);
        if c > AsU16(lineLen) {
          colDiff := c - AsU16(lineLen);
        }
      }
      if colDiff > 0 {
        col := MoveLeft(col, colDiff);
      }
    }

    /** `n`: with a selection, step to the next match (cyclically), repaint
        from its line, shift the range by `lnum - 1`, and put the cursor in the
        match's column on row 0. Without a selection nothing changes. */
    twostate predicate NextMatchEffect()
      requires old(Valid())
      reads this, display, search
    {
      search.word == old(search.word) && search.lines == old(search.lines)
      && display.cursorPos == old(display.cursorPos)
      && (old(search.nowIdx).None? || old(search.lines) == [] ==>
            search.nowIdx == old(search.nowIdx) && status == old(status)
            && display.start == old(display.start) && display.end == old(display.end)
            && row == old(row) && col == old(col))
      && (old(search.nowIdx).Some? && old(search.lines) != [] ==>
            var k := NextIndex(old(search.nowIdx).value, |old(search.lines)|);
            var (lnum, lcol) := old(search.lines)[k];
            search.nowIdx == Some(k)
            && status == (if RepaintInRange(lnum, |file|, lineCount, windowRows) then Running else Panicked)
            && (status.Running? ==>
                  display.start == Add64(old(display.start), Sub64(lnum, 1))
                  && display.end == Add64(old(display.end), Sub64(lnum, 1))
                  && row == 0 && col == Clamp(AsU16(lcol), windowCols)))
    }

    /** `n`. */
    method NextMatch()
      requires Valid() && status.Running?
      modifies this`row, this`col, this`status, display, search
      ensures Valid()
      ensures NextMatchEffect()
    {
      if search.nowIdx.Some? {
        var next := search.Next();
        if next.Some? {
          var (lnum, lcol) := next.value;
          var ok := RepaintLines(lnum, |file|, lineCount, windowRows);
          if !ok {
            status := Panicked;
            return;
          }
          display.start := Add64(display.start, Sub64(lnum, 1));
          display.end := Add64(display.end, Sub64(lnum, 1));
          row := 0;
          col := Clamp(AsU16(lcol), windowCols);
        }
      }
    }

    /** Only the cursor moved, to row `r` and column `c`: the range, the
        saved cursor and the loop's status stay. */
    twostate predicate CursorMovedTo(r: u16, c: u16)
      reads this, display
    {
      row == r && col == c && status == old(status)
      && display.start == old(display.start) && display.end == old(display.end)
      && display.cursorPos == old(display.cursorPos)
    }

    /** What the normal-mode key `ev` on line `lineIdx` of `lineLen` bytes
        leaves behind: the effect of the arm the key reaches, and no change at
        all for a key that reaches none. `h`, `l`, Ctrl-u and Ctrl-d move only
        the cursor. The typed characters, the query and the matches stay, and
        search mode is entered by `/` alone. */
    twostate predicate NormalKeyEffect(ev: Event, lineIdx: u64, lineLen: u64)
      requires old(Valid())
      reads this, display, search
    {
      searchWordVec == old(searchWordVec) && search.word == old(search.word)
      && search.lines == old(search.lines)
      && (searchMode <==> NormalAction(ev) == OpenPrompt)
      && (NormalAction(ev) != StepMatch ==> search.nowIdx == old(search.nowIdx))
      && match NormalAction(ev)
         case CursorDown => KeyDownEffect(lineIdx)
         case CursorUp => KeyUpEffect(lineIdx)
         case CursorLeft => CursorMovedTo(old(row), MoveLeft(old(col), 1))
         case CursorRight =>
           CursorMovedTo(old(row), if RightGuard(lineLen, old(col)) then MoveRight(old(col), 1, windowCols) else old(col))
         case HalfPageBack => CursorMovedTo(MoveUp(old(row), HALF_PAGE), old(col))
         case HalfPageForward => CursorMovedTo(MoveDown(old(row), HALF_PAGE, windowRows), old(col))
         case OpenPrompt =>
           display.cursorPos == (old(row) as u64, old(col) as u64)
           && row == Clamp(Add16(windowRows, 1), windowRows) && col == MoveRight(0, 1, windowCols)
           && status == old(status) && display.start == old(display.start) && display.end == old(display.end)
         case StepMatch => NextMatchEffect()
         case Quit =>
           status == Exited && row == old(row) && col == old(col)
           && display.start == old(display.start) && display.end == old(display.end)
           && display.cursorPos == old(display.cursorPos)
         case NoAction => CursorMovedTo(old(row), old(col))
    }

    /** The normal-mode keys on line `lineIdx` of `lineLen` bytes. */
    method HandleNormalKey(ev: Event, lineIdx: u64, lineLen: u64)
      requires Valid() && status.Running? && !searchMode
      modifies this, display, search
      ensures Valid()
      ensures NormalKeyEffect(ev, lineIdx, lineLen)
      ensures status != Failed
    {
      match NormalAction(ev) {
        case CursorLeft => col := MoveLeft(col, 1);
        case CursorDown => KeyDown(lineIdx);
        case CursorUp => KeyUp(lineIdx);
        case CursorRight =>
          if RightGuard(lineLen, col) {
            col := MoveRight(col, 1, windowCols);
          }
        case HalfPageBack => row := MoveUp(row, HALF_PAGE);
        case HalfPageForward => row := MoveDown(row, HALF_PAGE, windowRows);
        case OpenPrompt =>
          searchMode := true;
          display.cursorPos := (row as u64, col as u64);
          row := Clamp(Add16(windowRows, 1), windowRows);
          col := MoveRight(0, 1, windowCols);
        case StepMatch => NextMatch();
        case Quit => status := Exited;
        case NoAction =>
      }
    }

    /** Enter at the prompt: `reset`, then a non-empty query runs the matcher
        and jumps to the first match at or above the cursor's row; the range is
        shifted by `lnum - 1` and the cursor lands on the saved row, in the
        match's column. */
    twostate predicate CommitSearchEffect()
      requires old(Valid())
      reads this, display, search
    {
      search.word == old(searchWordVec)
      && display.cursorPos == old(display.cursorPos)
      && (status.Running? ==>
            !searchMode && searchWordVec == [] && row == Clamp(AsU16(display.cursorPos.0), windowRows))
      && (old(searchWordVec) == [] ==>
            status.Running? && search.lines == [] && search.nowIdx == None
            && display.start == old(display.start) && display.end == old(display.end)
            && col == Clamp(AsU16(old(display.cursorPos.1)), windowCols))
      && (old(searchWordVec) != [] ==>
            match matcher(filename, old(searchWordVec))
            case InvalidPattern => status == Panicked
            case IoError => status == Failed
            case Found(result) =>
              search.lines == result
              && match FirstAtOrBefore(result, Add64(old(display.start), old(row)))
                 case None =>
                   status.Running? && search.nowIdx == None
                   && display.start == old(display.start) && display.end == old(display.end)
                   && col == Clamp(AsU16(old(display.cursorPos.1)), windowCols)
                 case Some(k) =>
                   search.nowIdx == Some(k)
                   && status == (if RepaintInRange(result[k].0, |file|, lineCount, windowRows) then Running else Panicked)
                   && (status.Running? ==>
                         display.start == Add64(old(display.start), Sub64(result[k].0, 1))
                         && display.end == Add64(old(display.end), Sub64(result[k].0, 1))
                         && col == Clamp(AsU16(result[k].1), windowCols)))
    }

    /** Enter at the prompt. */
    method CommitSearch()
      requires Valid() && status.Running? && searchMode
      modifies this`searchMode, this`searchWordVec, this`row, this`col, this`status, display, search
      ensures Valid()
      ensures CommitSearchEffect()
    {
      search.Reset();
      var lcol := display.cursorPos.1;
      if searchWordVec != [] {
        search.word := searchWordVec;
        var outcome := matcher(filename, search.word);
        match outcome {
          case InvalidPattern =>
            status := Panicked;
            return;
          case IoError =>
            status := Failed;
            return;
          case Found(result) =>
            if result != [] {
              search.lines := result;
              var nowPosition := Add64(display.start, row);
              var pos := search.GetNearLine(nowPosition);
              if pos.Some? {
                var (lnum, l) := pos.value;
                lcol := l;
                var ok := RepaintLines(lnum, |file|, lineCount, windowRows);
                if !ok {
                  status := Panicked;
                  return;
                }
                display.start := Add64(display.start, Sub64(lnum, 1));
                display.end := Add64(display.end, Sub64(lnum, 1));
              }
            }
        }
      }
      searchMode := false;
      row := Clamp(AsU16(display.cursorPos.0), windowRows);
      col := Clamp(AsU16(lcol), windowCols);
      searchWordVec := [];
    }

    /** The prompt keys. Esc leaves search mode without moving the cursor (its
        `RestorePosition` returns to the position saved on this same turn);
        Backspace and Delete on an empty buffer do nothing. */
    twostate predicate SearchKeyEffect(ev: Event)
      requires old(Valid())
      reads this, display, search
    {
      (ev.Key? && ev.code == Esc ==>
            status.Running? && !searchMode && searchWordVec == [] && row == old(row) && col == old(col)
            && search.lines == old(search.lines) && search.nowIdx == old(search.nowIdx))
      && (ev.Key? && ev.code in {Backspace, Delete} ==>
            status.Running? && searchMode && row == old(row)
            && (if old(searchWordVec) == [] then searchWordVec == [] && col == old(col)
                else searchWordVec == old(searchWordVec)[..|old(searchWordVec)| - 1] && col == MoveLeft(old(col), 1)))
      && (ev.Key? && ev.code.Char? ==>
            status.Running? && searchMode && row == old(row)
            && searchWordVec == old(searchWordVec) + [ev.code.c] && col == MoveRight(old(col), 1, windowCols))
      && (ev.Key? && ev.code == Enter ==> CommitSearchEffect())
      && (!(ev.Key? && ev.code == Enter) ==>
            status.Running? && search.word == old(search.word) && search.lines == old(search.lines)
            && search.nowIdx == old(search.nowIdx)
            && display.start == old(display.start) && display.end == old(display.end))
      && (!(ev.Key? && (ev.code.Char? || ev.code in {Esc, Backspace, Delete, Enter})) ==>
            status.Running? && searchMode && row == old(row) && col == old(col) && searchWordVec == old(searchWordVec))
      && display.cursorPos == old(display.cursorPos)
    }

    /** The prompt key `ev`. */
    method HandleSearchKey(ev: Event)
      requires Valid() && status.Running? && searchMode
      modifies this`searchMode, this`searchWordVec, this`row, this`col, this`status, display, search
      ensures Valid()
      ensures SearchKeyEffect(ev)
    {
      match ev {
        case Key(Esc, _) =>
          searchMode := false;
          searchWordVec := [];
        case Key(Backspace, _) => DropTyped();
        case Key(Delete, _) => DropTyped();
        case Key(Enter, _) => CommitSearch();
        case Key(Char(c), _) =>
          searchWordVec := searchWordVec + [c];
          col := MoveRight(col, 1, windowCols);
        case _ =>
      }
    }

    /** Backspace / Delete: with nothing typed the turn ends (`continue`);
        otherwise pop the last character and move left over it. */
    method DropTyped()
      requires Valid()
      modifies this`searchWordVec, this`col
      ensures Valid()
      ensures old(searchWordVec) == [] ==> searchWordVec == [] && col == old(col)
      ensures old(searchWordVec) != [] ==>
        searchWordVec == old(searchWordVec)[..|old(searchWordVec)| - 1] && col == MoveLeft(old(col), 1)
    {
      if searchWordVec == [] {
        return;
      }
      searchWordVec := searchWordVec[..|searchWordVec| - 1];
      col := MoveLeft(col, 1);
    }

    /** One turn of this loop: the cursor's line is read first, in either mode
        (a panic when it is not a line of the rope, which includes the prompt
        row of a short file), then the key is handled by the prompt or by the
        normal keys. */
    method Step(ev: Event)
      requires Valid() && status.Running?
      modifies this, display, search
      ensures Valid()
      ensures old(CursorLine()) >= |file| ==> status == Panicked
      ensures old(CursorLine()) < |file| && !old(searchMode) && ev.Key? && ev.code == Esc ==> status == Exited
      ensures old(CursorLine()) < |file| && old(searchMode) ==> SearchKeyEffect(ev)
      ensures old(CursorLine()) < |file| && !old(searchMode) ==>
        NormalKeyEffect(ev, old(CursorLine()), StrippedLength(file[old(CursorLine())]))
    {
      var lineIdx := CursorLine();
      if lineIdx >= |file| {
        status := Panicked;
        return;
      }
      var lineLen: u64 := StrippedLength(file[lineIdx]);
      if searchMode {
        HandleSearchKey(ev);
      } else {
        HandleNormalKey(ev, lineIdx, lineLen);
      }
    }
  }
}
