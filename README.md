# miniless: a verified model of the pager's core

miniless is a small `less`-like terminal pager written in Rust. It maps a file into a rope of lines and shows one screen of them. It reads keys in one of two modes:

- **Normal mode:**
  - `j`/`k`/`h`/`l` and the arrow keys move the cursor;
  - Ctrl-u and Ctrl-d jump half a page;
  - `n` and `N` jump between matches;
  - `/` opens a search prompt;
  - Esc quits.
- **Search prompt:** characters are typed and removed with Backspace. Enter runs a regular-expression search and jumps to a match. Esc closes the prompt.

This project models the state those keys change and proves what each key leaves behind:

- the visible line range (`DisplayLines.start`/`end`);
- the terminal cursor;
- the sticky column (`shadow_cursor_pos.1`);
- the mode flag;
- the search state (`SearchResult`).

It covers the current loop (`src/renderloop.rs`, with `src/search.rs` and `src/utils/line.rs`). It also covers the older, self-contained loop in `src/main.rs`, which has its own `SearchResult` and `DisplayLines`.

Modules:

- `Base` has the Rust vocabulary:
  - `Option`;
  - `u16`/`u64`/`i16` as subset types of `int`;
  - the wrap-around arithmetic of a release build (`Add16`, `Sub64`, `AsU16`, …);
  - `Status`, which records how the main loop stands: running, returned `Ok`, returned an I/O error, or panicked.
- `Terminal` has key events and the crossterm cursor moves. The moves stop at the screen edges, `MoveTo` is clamped to the screen, and printing one character moves right by one.
- `Line` is `get_stripped_line_length`. A rope line is its text plus a flag that says whether the line is one contiguous chunk (`as_str()` is `Some`). The length counts UTF-8 bytes of the text once `trim_end` has removed trailing Unicode whitespace, as Rust's `str::len` does.
- `Search` is the `SearchResult` class of `src/search.rs`. Its selection invariant is that `now_idx` is `None` or indexes a match.
- `RenderLoop` is `src/renderloop.rs`:
  - one method per key handler on a `Pager` class whose fields are the loop's state;
  - pure functions that each handler's contract is stated against (the sticky-column arithmetic, the Ctrl-u/Ctrl-d plans);
  - lemmas about those functions;
  - the first-screen loop (`InitialDisplayEnd`).
- `Legacy` is the loop of `src/main.rs`, including its repaint loop (`RepaintLines`).
- In both `RenderLoop` and `Legacy`, what each handler leaves behind is stated once, as a two-state predicate relating the old state to the new one (`KeyDownEffect`, `HalfPageDownEffect`, `CommitSearchEffect` and so on). Each handler ensures its own predicate. The key router ensures, for every key, the predicate of the handler its key table (`DisplayAction`, `NormalAction`) sends the key to. `Step` ensures the router's predicate for the cursor's line.

Arithmetic follows a release build: `u16`, `u64` and `usize` overflow wraps. `usize` is taken to be 64 bits. Every index into the rope or into a `Vec` is checked: reading a line that does not exist sets the status to `Panicked` at the point where the source would panic. Window rows, window columns and the file are constants of a `Pager`.

Two crossterm facts shape the cursor model:

- **Save and restore.** The status line is drawn between `SavePosition` and `RestorePosition` on every turn, so the single saved slot always holds the position the cursor had when the turn began. Every `RestorePosition` inside a handler therefore leaves the cursor where it is. As a consequence, Esc at the search prompt of `src/main.rs` leaves the cursor on the prompt row.
- **Clamping.** `MoveTo` beyond the screen lands on the last row or column.

Behaviour of the code as written that the model reproduces, and that its lemmas exhibit:

- `l` on an empty line (renderloop.rs:428): the guard `line_len as u16 - 1` wraps to 65535, so the cursor still moves right. See `RenderLoop.RightOnEmptyLine`.
- Ctrl-d near the end of a short file (renderloop.rs:498-500): when the computed end lies `d` lines past the last line, the offset `30 - (display_line_end - line_count - 1) as u16` is `32 - d`. At `d == 32` the screen does not scroll at all, and for `d > 32` the offset wraps. The start of the range then jumps far past its end. See `RenderLoop.HalfPageDownOffset` and `RenderLoop.HalfPageDownShortFile`.
- Ctrl-u with `start == 30` (renderloop.rs:439-446): the scroll offset is `30 - 30 = 0`, so the screen does not scroll. See `RenderLoop.ScrollOffsetUp`.
- First screen of an empty file (renderloop.rs:619): `line_count as u16 - 1` wraps, so on a window of 4 or more rows the loop reads line 1 of a one-line rope and panics. See `RenderLoop.EmptyFilePanics` and `RenderLoop.InitialDisplayEnd`.
- Search jumps (renderloop.rs:232-234, 561-562): Enter, `n` and `N` set both `start` and `end` to `lnum - 1`. Afterwards `end == start`, whatever the window height.
- Nearest match in `src/main.rs` (main.rs:70): its `get_near_line` selects the first match at or above the cursor. On matches sorted by line, that is always the first match, or none. See `Legacy.FirstAtOrBeforeOnlyFirst`.
- Jump repaint in `src/main.rs` (main.rs:315-321, 489-495): the loop repaints a full screen from the match's line and reads each line with `lines.line`, which panics. It reads `rows - 2` lines from the match's line on, so a jump to a match on one of the last `rows - 4` lines of the file panics. With 100 lines and 24 rows, that is a match on line 81 or later. See `Legacy.RepaintPanicsOnLastLines`, `Legacy.RepaintNearEndPanics` and `Legacy.RepaintInsideFile`.
- Cursor line read in `src/main.rs` (main.rs:254-256): the loop reads the cursor's line on every turn, in search mode too, where the cursor is on the prompt row below the screen. On a file shorter than the window this panics. It is stated by `Legacy.Pager.Step`.

## Model

| member | source | states |
|---|---|---|
| `Line.StrippedLength` | src/utils/line.rs:1-7 | on a contiguous line, the line's byte length less the bytes of the trailing whitespace `trim_end` drops; 0 when `as_str()` is `None` |
| `Line.KeptChars` | src/utils/line.rs:3 | the kept prefix is no longer than the line, everything after it is whitespace, and its last character is not whitespace |
| `Line.StrippedLengthBounds` | src/utils/line.rs:1-8 | the stripped length is at most the line's byte length, and on a contiguous line at least the number of kept characters |
| `Line.StrippedLengthAscii` | src/utils/line.rs:2-3 | on an ASCII line the stripped length is the number of characters `trim_end` keeps |
| `Line.BlankLineHasLengthZero` | src/utils/line.rs:2-6 | the length is 0 exactly for a non-contiguous slice or a line of whitespace only |
| `Line.TrimEndIgnoresTrailingWhitespace` | src/utils/line.rs:3 | appending whitespace does not change what `trim_end` keeps |
| `Search.FirstAtOrAfter` | src/search.rs:39-50 | the selected index is the first match at or after the position; none means every match lies before it |
| `Search.FirstAtOrAfterIsNearest` | src/search.rs:39-50 | on sorted matches the selected match is the nearest at or after the position |
| `Search.NextIndex` | src/search.rs:56 | the next index is in range: `n + 1`, or 0 after the last match |
| `Search.AdvanceIsCyclic` | src/search.rs:51-65 | after `k` presses of `next` the selection has moved `k` places, modulo the number of matches |
| `Search.AdvanceReturnsAfterFullCycle` | src/search.rs:51-65 | as many presses as there are matches come back to the starting match |
| `Search.NearLineDoesNotWrap` | src/search.rs:39-50 | with every match before the position, nothing is selected (no wrap to the top) |
| `Search.SearchResult.constructor` | src/search.rs:18-26 | a new search state has the given file name and empty query, buffer, matches and selection |
| `Search.SearchResult.ExistsMatch` | src/search.rs:36-38 | true exactly when there is a selection, which then indexes a match |
| `Search.SearchResult.GetNearLine` | src/search.rs:39-50 | selects and returns the first match at or after the position, or returns none and keeps the selection; keeps the invariant |
| `Search.SearchResult.Next` | src/search.rs:51-65 | moves the selection to the next index, wrapping, and returns that match; without a selection or matches nothing changes |
| `Search.SearchResult.Reset` | src/search.rs:66-71 | clears query, buffer, matches and selection; the file name stays |
| `RenderLoop.RequiredCorrection` | src/renderloop.rs:49-60 | 0 when the column is the sticky column or the line has at most one byte, the sticky column when the line reaches past it, otherwise the line's last column `len - 1`; never beyond that last column |
| `RenderLoop.ShadowStep` | src/renderloop.rs:342-346 | the rightward step is the correction minus the column, or 0 when that is negative |
| `RenderLoop.ColumnAfterVertical` | src/renderloop.rs:306-348 | the column after `j`/`k` is on the screen |
| `RenderLoop.StickyColumn` | src/renderloop.rs:306-348 | away from the 16-bit limits, the column after `j`/`k` is the larger of the column and the sticky column, clamped to the new line's last column and the screen |
| `RenderLoop.StickyColumnScenario` | src/renderloop.rs:329-348 | from column 8 onto a 3-byte line gives column 2; then onto a 10-byte line gives column 8 again |
| `RenderLoop.RightAllowedWithinLine` | src/renderloop.rs:428 | on a line of 1 to 65535 bytes, `l` moves exactly while a character lies right of the cursor |
| `RenderLoop.RightOnEmptyLine` | src/renderloop.rs:428 | on an empty line the wrapped guard still lets `l` move |
| `RenderLoop.ScrollOffsetUp` | src/renderloop.rs:437-446 | Ctrl-u scrolls by at most 30 lines, by `30 - start` near the top, and not at all exactly when `start` is 0 or 30 |
| `RenderLoop.HalfPageUpView` | src/renderloop.rs:437-455 | Ctrl-u moves the start back by at most 30 and never past line 0; unchanged at `start == 0`; after a scroll from beyond 30 the start is `start - 30` and the end `start' + rows - 3` |
| `RenderLoop.HalfPageUpRow` | src/renderloop.rs:460-468 | the cursor row after Ctrl-u is never lower than before |
| `RenderLoop.HalfPageDownPlan` | src/renderloop.rs:494-505 | the planned end is at most `line_count - 1`, and the offset is 0 when the range already ends there |
| `RenderLoop.HalfPageDownView` | src/renderloop.rs:494-515 | Ctrl-d leaves the end unchanged or at most at `line_count - 1` |
| `RenderLoop.HalfPageDownAtEnd` | src/renderloop.rs:502-504 | when the range already ends on the last line (cursor inside the range), Ctrl-d leaves it unchanged |
| `RenderLoop.HalfPageDownOffset` | src/renderloop.rs:494-504 | when the computed end lies `d` lines past the last line, the scroll offset is `32 - d` for `d < 32`, 0 at `d == 32`, and wraps to `65568 - d` for `d > 32` |
| `RenderLoop.HalfPageDownShortFile` | src/renderloop.rs:498-500 | the wrapping offset: with 10 lines and a 24-row window the start becomes 65524 |
| `RenderLoop.HalfPageDownRow` | src/renderloop.rs:517-529 | the cursor row after Ctrl-d is never higher than before and stays on the screen |
| `RenderLoop.InitialDisplayEnd` | src/renderloop.rs:614-622 | the first screen ends at `min(rows - 3, line_count as u16 - 1)`, and the loop panics exactly when that line is missing |
| `RenderLoop.EmptyFilePanics` | src/renderloop.rs:619 | for an empty file that end is at least 1, so a window of 4 or more rows panics |
| `RenderLoop.DisplayLines.constructor` | src/renderloop.rs:607-612 | an empty range at line 0, saved cursor and sticky column 0 |
| `RenderLoop.Pager.constructor` | src/renderloop.rs:599-623 | fresh search state and range, cursor at the top left, normal mode, the first screen's end, and a panic exactly when it is missing |
| `RenderLoop.Pager.KeyDown` | src/renderloop.rs:281-349 | scroll: start and end both +1; else move down a row; else nothing changes; panics on a missing line; the column is `ColumnAfterVertical` of the next line; the sticky column never changes |
| `RenderLoop.Pager.KeyUp` | src/renderloop.rs:350-414 | scroll: start and end both −1; on row 0 at the top nothing changes; panics on a missing line; the column is `ColumnAfterVertical` of the previous line; the sticky column never changes |
| `RenderLoop.Pager.KeyLeft` | src/renderloop.rs:415-423 | one column left only when the column is positive, and the sticky column becomes the new column |
| `RenderLoop.Pager.KeyRight` | src/renderloop.rs:424-432 | one column right only under the `u16` guard, and the sticky column becomes the old column plus one |
| `RenderLoop.Pager.HalfPageUp` | src/renderloop.rs:433-488 | the range becomes `HalfPageUpView` and the row `HalfPageUpRow`; column and sticky column stay |
| `RenderLoop.Pager.HalfPageDown` | src/renderloop.rs:489-536 | the range becomes `HalfPageDownView` and the row `HalfPageDownRow`; column and sticky column stay |
| `RenderLoop.Pager.BeginSearch` | src/renderloop.rs:537-545 | search mode on, the cursor saved, the cursor after the `/` on the prompt row |
| `RenderLoop.Pager.JumpToMatch` | src/renderloop.rs:546-593 | only with a selection: the lookup's selection is stored, and on an answer the range becomes `lnum - 1` with the cursor on row 0 in the match's column |
| `RenderLoop.Pager.HandleDisplayInput` | src/renderloop.rs:260-279 | reads the cursor's line first (panic when missing); then each key has exactly the effect of the handler `DisplayAction` routes it to (`j`/Down, `k`/Up, `h`/Left, `l`/Right with the line's length, Ctrl-u, Ctrl-d, `/`, `n`, `N`), and any other key changes nothing; only `/` turns search mode on; the query and matches stay |
| `RenderLoop.Pager.CommitSearch` | src/renderloop.rs:205-247 | the buffer becomes the query and is emptied; previous matches are cleared even for an empty query or no result; matcher failure panics or returns the error; on a match the range becomes `lnum - 1`; search mode ends with the cursor on row 0 |
| `RenderLoop.Pager.HandleSearchWordInput` | src/renderloop.rs:175-257 | Esc ends search mode with the buffer emptied and the cursor back at the saved position; a character is appended; Enter has exactly the effect of `CommitSearch`; every other key leaves the range, query, matches and selection alone, and keys outside the prompt's table change nothing |
| `RenderLoop.Pager.DropTyped` | src/renderloop.rs:196-204 | Backspace/Delete pop the last character and move left only when the buffer is non-empty |
| `RenderLoop.Pager.Step` | src/renderloop.rs:625-672 | routing: Esc in normal mode exits with nothing changed; any other normal-mode key has the effect `HandleDisplayInput` states for the cursor's line `start + row`; in search mode the key has the effect `HandleSearchWordInput` states |
| `Legacy.FirstAtOrBefore` | src/main.rs:66-77 | the selected index is the first match at or above the position; none means every match lies below it |
| `Legacy.FirstAtOrBeforeOnlyFirst` | src/main.rs:66-77 | on sorted matches the selection is index 0 when the first match is at or above the position, and none otherwise |
| `Legacy.InitialDisplayEnd` | src/main.rs:239-247 | the first screen ends at `min(rows - 3, line_count as u16)`, panicking exactly when that line is missing |
| `Legacy.RepaintLines` | src/main.rs:315-321 | the repaint succeeds exactly when every line it reads exists |
| `Legacy.RepaintPanicsOnLastLines` | src/main.rs:315-321 | on a file at least as long as the screen, the repaint after a jump to line `lnum` succeeds exactly when `lnum` is not one of the last `rows - 4` lines |
| `Legacy.RepaintNearEndPanics` | src/main.rs:489-495 | a jump to line 100 of a 100-line file in a 24-row window panics |
| `Legacy.RepaintInsideFile` | src/main.rs:315-321 | a jump whose screenful lies inside the file never panics |
| `Legacy.DisplayLines.constructor` | src/main.rs:233-237 | an empty range at line 0 with saved cursor (0, 0) |
| `Legacy.SearchResult.constructor` | src/main.rs:226-230 | empty query, matches and selection |
| `Legacy.SearchResult.GetNearLine` | src/main.rs:66-77 | selects and returns the first match at or above the position, or returns none and keeps the selection; keeps the invariant |
| `Legacy.SearchResult.Next` | src/main.rs:78-92 | moves the selection cyclically and returns that match; without a selection or matches nothing changes |
| `Legacy.SearchResult.Reset` | src/main.rs:93-97 | clears query, matches and selection |
| `Legacy.Pager.constructor` | src/main.rs:220-248 | fresh state, cursor at the top left, and the first screen's end; it never panics |
| `Legacy.Pager.KeyDown` | src/main.rs:353-402 | scroll: start and end both +1; else move down; else nothing; panics on a missing line; the column is pulled back to the next line's last column and never restored |
| `Legacy.Pager.KeyUp` | src/main.rs:403-443 | scroll: start and end both −1; at the top on row 0 nothing changes; the column is pulled back to the previous line's last column |
| `Legacy.Pager.NextMatch` | src/main.rs:474-501 | only with a selection and matches: select the next match cyclically, panic when its repaint reads past the file, move start and end by `lnum - 1`, cursor to row 0 in the match's column |
| `Legacy.Pager.HandleNormalKey` | src/main.rs:344-506 | each key has exactly the effect of the arm `NormalAction` routes it to: `j`/`k` as `KeyDown`/`KeyUp`, `n` as `NextMatch`, Esc exits; `h`, `l` (under the `u16` guard), Ctrl-u and Ctrl-d (20 rows) move only the cursor, with range and status unchanged; any other key changes nothing; only `/` enters search mode, saving the cursor |
| `Legacy.Pager.CommitSearch` | src/main.rs:293-335 | `reset` first; the buffer becomes the query; on a match at or above the cursor row, start and end move by `lnum - 1` (or the repaint panics); the cursor goes to the saved row |
| `Legacy.Pager.HandleSearchKey` | src/main.rs:275-343 | Esc ends search mode with the buffer emptied and the cursor where it is; Backspace on an empty buffer does nothing; a character is appended; Enter has exactly the effect of `CommitSearch`; every other key leaves the range, query, matches and selection alone |
| `Legacy.Pager.DropTyped` | src/main.rs:284-292 | with nothing typed nothing changes; otherwise pop and move left |
| `Legacy.Pager.Step` | src/main.rs:252-274 | the cursor's line is read first in both modes and panics when missing; then the key has the effect `HandleNormalKey` states for that line and its length, or in search mode the effect `HandleSearchKey` states |

## Left out

The model leaves out the following, one item per line:

- Terminal output. This covers painting, clearing and scrolling the screen, the status and search lines, `re_render_display_lines`, and the I/O errors of `execute!`, `position()`, `read()` and `terminal::size()`. None of them changes the modelled state. Writes are taken to succeed.
- The terminal's own size. `window_rows` from `terminal::size()` and the column count are constructor parameters. Resize events are `OtherEvent`.
- Opening and reading the file (`File::open`, `Rope::from_reader`). The file is a constructor parameter. Line splitting and chunking inside `ropey` are reduced to a `contiguous` flag per line.
- The regular-expression search (`search::search` at src/search.rs:74-88, and `search` at src/main.rs:104-118), which is a foreign call into the `grep` crate. It is the `matcher` parameter. Its outcomes are the matches, a panic (the `unwrap`s), or an I/O error.
- `RenderLoop.Pager.JumpToMatch`: the tuple-taking `get_near_line`, `get_near_line_with_previous` and `match_lines` that renderloop.rs calls are not in src/search.rs. They are the `nearLine`/`nearLineBefore` parameters. The only assumption about them is that the selection they leave is absent or a real match.
- `RenderLoop.Pager.CommitSearch`: for the same reason the jump target after Enter is whatever `nearLine` answers. `match_lines` is taken to be `lines`.
- The floating-point percentage and every `format!` string of the status line.
- `src/app.rs`, and `main`, `clap` and raw-mode handling in src/main.rs:513-528.
- The shadow row (`shadow_cursor_pos.0`). The source writes it and never reads it. The model keeps only the sticky column.
- The terminal's automatic wrap at the right margin when a character is printed in the last column. Printing is modelled as a clamped move right.
- `RenderLoop.StickyColumn`: the closed form is proved only for columns, sticky columns and line lengths below 0x8000. Beyond that, the `i16` and `u16` truncations of the source hold and are modelled, but they are not summarised.
- `RenderLoop.HalfPageUpRow`: the exact cursor row after Ctrl-u is stated by the method, but only its direction is proved. The landing row depends on how far the terminal clamps.
- `RenderLoop.HalfPageDownRow`: as for Ctrl-u, the exact cursor row after Ctrl-d is stated by the method, but only its direction and its bound are proved.
- `RenderLoop.HalfPageDownAtEnd` assumes the cursor is inside a range of at most `rows - 2` lines and that there is no 64-bit wrap. Without these assumptions a Ctrl-d at the end of the file can still scroll.
- `RenderLoop.Pager.constructor` requires a window of at least 3 rows and 1 column. The source's `window_rows - 3` and `window_rows - 2` would wrap on a smaller one.
- `Legacy.Pager.constructor` requires a window of at least 3 rows and 1 column, for the same reason.
- Debug-build overflow panics. The model follows a release build, where overflow wraps. In a debug build the same wraps panic, and the model's `Panicked` status does not cover those panics. The sites are `line_len as u16 - 1` on an empty line (renderloop.rs:428, main.rs:447), `(display_line_end - line_count - 1) as u16` when the end is one line past the last (renderloop.rs:499), `cursor_pos_row as u64 - 1` for the shadow row on row 0 (renderloop.rs:372), and `line_count as u16 - 1` for an empty file (renderloop.rs:619).
- Ctrl-u and Ctrl-d with other modifiers besides Control, and `u`/`d` without Control, fall through to the no-op arm. This matches the source's exact `KeyModifiers::CONTROL` patterns.
