# Rendered-line buffer of the Flow log viewer

Flow is a realtime terminal log viewer. This project models its rendered-line
buffer (`src/ui/rendered_line.rs`): every ingested log line with the number of
wrapped rows it occupies (`height`) and the rows of it that hold a hit of the
current search (`found_matches`), and the ordered collection of such lines
that answers height sums, filtering and match navigation in a bottom-anchored
scroll space (distances are counted in rows up from the newest row).

Files:

- `line.dfy` (module `Lines`): the log line as far as the buffer uses it: the
  literal, case-sensitive substring test `Contains`.
- `wrappers.dfy` (module `Wrappers`): `Option`.
- `rendered_line.dfy` (module `RenderedLines`):
  - `RenderedLine` is a class, because `search` and `update_found_matches`
    change `found_matches` in place. Painting is a ghost counter `repaints`.
  - `RenderedLineCollection` is a class whose `entries` field is reassigned by
    `Create` (push) and `Clear`.
  - The iterator-chain queries (`height`, `height_up_to_index`,
    `last_lines_height`, `buffer_reverse_index`, `last_match`, `next_match`,
    `previous_match`) are functions. The `FindMatch` helper is a function
    over the enumerated scan that each query builds: `LastScan`, `NextScan`
    and `PreviousScan` give those scans element by element. `find_match`
    looks only at each line's position and match state, so a scan is a
    sequence of such pairs.
  - `matching` is the pure `Filter` followed by the `CloneAll` loop that
    makes the copies.
  - The two loops `is_match_in_viewport` and `viewport_match` are methods with
    loop invariants.
  - `Len`, `IsEmpty` and `Get` (the `Index` impl, which requires an index in
    range) are the plain accessors.

Index conventions follow the code:

- `ViewportMatch` and `LastMatch` enumerate after reversing, so their `line` is
  a position counted from the newest entry (0 is the last entry).
- `NextMatch`, `PreviousMatch`, `IsMatchInViewport` and `BufferReverseIndex`
  use forward positions.
- `ViewportMatch` compares with the height of the lines strictly newer than
  the candidate line. `IsMatchInViewport` uses the height from the line to the
  end, the line included, and ignores the cursor's match index.

Consequences of the code that a reader might not expect:

- For lines of heights 1, 2 and 1 where only the middle line has hits on rows
  0 and 1, with a 4-row viewport at the bottom, the code reports hit 0 of the
  middle line, not its last hit 1. This is because `viewport_match` returns the first
  offset, in `found_matches` order, that fits under the limit
  (`ThreeLineExample`).
- For a viewport that covers the whole buffer, the visible match and the last
  match agree on the line but not necessarily on the match index: the first
  hit against the last hit, which coincide only when the line holds one hit
  (`FullViewportFindsLastMatch`).
- When the first line that `last_match`, `next_match` or `previous_match`
  finds has an empty match list, `match_count() - 1` underflows. With
  overflow checks on, as in debug builds, this panics; the `Findable`
  precondition excludes it (see `FindMatch` under "Left out").

## Model

| member | source | states |
|---|---|---|
| `Lines.HasSubstringIffOccurs` | src/ui/rendered_line.rs:51 | the containment test `search` and `matching` use holds exactly when the needle occurs at some position of the line's text |
| `RenderedLines.RenderedLine.constructor` | src/ui/rendered_line.rs:37-43 | a new line holds the given text, height and match state and has not been painted |
| `RenderedLines.RenderedLine.Print` | src/ui/rendered_line.rs:79-82 | painting a line counts one repaint and changes nothing else |
| `RenderedLines.RenderedLine.UpdateFoundMatches` | src/ui/rendered_line.rs:84-92 | reports a change exactly when the new match state differs from the old one; afterwards the state is the new one, so a second call with the same value reports no change and leaves the state as it is |
| `RenderedLines.RenderedLine.Search` | src/ui/rendered_line.rs:45-64 | returns whether the line contains the text; afterwards the match state is the highlighter's rows on a match and absent otherwise; the line is repainted exactly once if it matched or had hits before, and not at all otherwise |
| `RenderedLines.RenderedLine.Clone` | src/ui/rendered_line.rs:29-34 | a copy is a new object with the same text, height and match state |
| `RenderedLines.SumHeightsAppend` | src/ui/rendered_line.rs:219-229 | the height fold of two consecutive runs of lines is the sum of their folds |
| `RenderedLines.SumHeightsReverse` | src/ui/rendered_line.rs:219-229 | the height fold does not depend on the order of the lines, so folding a reversed run gives the same sum |
| `RenderedLines.FirstFoundIndex` | src/ui/rendered_line.rs:253 | `find` stops at the first line of the scan whose match state is present; every line before it has none |
| `RenderedLines.FindMatch` | src/ui/rendered_line.rs:245-259 | finds nothing exactly when no line of the scan holds matches; otherwise returns the position of the first line of the scan that holds matches, paired with the index of its last hit |
| `RenderedLines.FindableWhenNonEmpty` | src/ui/rendered_line.rs:252-258 | when every line that holds matches holds at least one, `match_count() - 1` never underflows on any scan |
| `RenderedLines.RenderedLineCollection.Default` | src/ui/rendered_line.rs:105-107 | a new buffer has no entries, so `IsEmpty` holds |
| `RenderedLines.RenderedLineCollection.Create` | src/ui/rendered_line.rs:109-112 | appends one new line after all existing ones, which stay as they were; the length grows by one and the total height by the new line's height; `Get` at the old length gives the new line, and the buffer is no longer empty |
| `RenderedLines.RenderedLineCollection.Matching` | src/ui/rendered_line.rs:114-122 | returns a new buffer of fresh, pairwise distinct copies of exactly the lines whose text contains the needle, in their original order; the receiver is not changed |
| `RenderedLines.MatchingPositions` | src/ui/rendered_line.rs:116-120 | the positions kept by the filter are exactly the positions of lines containing the needle, in strictly increasing order |
| `RenderedLines.Filter` | src/ui/rendered_line.rs:116-118 | the `filter` stage keeps, in order, exactly the lines at the positions whose text contains the needle |
| `RenderedLines.CloneAll` | src/ui/rendered_line.rs:119-120 | the `map` and `collect` stages give, position by position, fresh and pairwise distinct lines with the same text, height and match state |
| `RenderedLines.RenderedLineCollection.Clear` | src/ui/rendered_line.rs:128-130 | the buffer has no entries, its height is 0 and `IsEmpty` holds afterwards |
| `RenderedLines.RenderedLineCollection.IsEmpty` | src/ui/rendered_line.rs:136-138 | true exactly when the length is 0; its partners `Default` and `Clear` ensure a new or cleared buffer is empty, and `Create` ensures a buffer is not empty after a push |
| `RenderedLines.RenderedLineCollection.HeightSplit` | src/ui/rendered_line.rs:145-151 | for every split point `n` up to the length, the height of the lines before `n` plus the height of the last `length - n` lines is the total height |
| `RenderedLines.RenderedLineCollection.LastLinesHeightIsSuffix` | src/ui/rendered_line.rs:149-151 | the height of the last `count` lines, taken newest first, equals the fold over the matching suffix of the buffer (all of it when `count` exceeds the length) |
| `RenderedLines.RenderedLineCollection.LastLinesHeightAll` | src/ui/rendered_line.rs:149-151 | the height of all the newest lines is the total height |
| `RenderedLines.RenderedLineCollection.LastLinesHeightStep` | src/ui/rendered_line.rs:149-151 | taking one more of the newest lines adds exactly that line's height |
| `RenderedLines.RenderedLineCollection.LastLinesHeightMonotone` | src/ui/rendered_line.rs:149-151 | taking more of the newest lines never lowers their height |
| `RenderedLines.RenderedLineCollection.BufferReverseIndex` | src/ui/rendered_line.rs:140-143 | the distance from the bottom to a hit is the height of its line and all newer lines less the hit's row offset, so the hit's distance, its line's distance from the top and its offset add up to the total height; line, match state and match index must exist |
| `RenderedLines.RenderedLineCollection.IsMatchInViewport` | src/ui/rendered_line.rs:153-167 | true exactly when the height from the line to the end reaches the viewport's reverse index and some hit of the line, added to that height, stays within the limit; the match state must be present only once the height test passes |
| `RenderedLines.RenderedLineCollection.ViewportMatch` | src/ui/rendered_line.rs:169-190 | finds nothing exactly when no line qualifies; otherwise returns the first qualifying line counted from the newest, where a line qualifies when the scan still reaches it (the newer lines are below the limit), the newer lines are at least the reverse index high and one of its hits fits under the limit; the match index is the first hit that fits |
| `RenderedLines.RenderedLineCollection.LastScan` | src/ui/rendered_line.rs:193-196 | the scan lists every line from newest to oldest, each paired with its position counted from the end |
| `RenderedLines.RenderedLineCollection.NextScan` | src/ui/rendered_line.rs:202-205 | the scan lists the lines after the current position, oldest first, each paired with its forward position |
| `RenderedLines.RenderedLineCollection.PreviousScan` | src/ui/rendered_line.rs:210-214 | the scan lists the lines before the current position, newest first, each paired with its forward position |
| `RenderedLines.RenderedLineCollection.LastMatch` | src/ui/rendered_line.rs:192-199 | returns the newest line holding matches, counted from the end, at its last hit, with no newer line holding matches; some line must hold matches |
| `RenderedLines.RenderedLineCollection.NextMatch` | src/ui/rendered_line.rs:201-207 | returns the smallest forward position after the current one whose line holds matches, at its last hit, and nothing exactly when no later line holds matches |
| `RenderedLines.RenderedLineCollection.PreviousMatch` | src/ui/rendered_line.rs:209-216 | returns the largest forward position before the current one whose line holds matches, at its last hit, and nothing exactly when no earlier line holds matches; the current position must not exceed the length |
| `RenderedLines.RenderedLineCollection.NextThenPrevious` | src/ui/rendered_line.rs:201-216 | stepping to the next match and back to the previous one lands at or before the start, and exactly on it when the starting line holds matches |
| `RenderedLines.RenderedLineCollection.LastScanFindable` | src/ui/rendered_line.rs:192-199 | when every match state is well formed, `last_match`'s `match_count() - 1` cannot underflow |
| `RenderedLines.RenderedLineCollection.NextScanFindable` | src/ui/rendered_line.rs:201-207 | when every match state is well formed, `next_match`'s `match_count() - 1` cannot underflow, for every starting position |
| `RenderedLines.RenderedLineCollection.PreviousScanFindable` | src/ui/rendered_line.rs:209-216 | when every match state is well formed, `previous_match`'s `match_count() - 1` cannot underflow, for every starting position up to the length |
| `RenderedLines.RenderedLineCollection.FullViewportFindsLastMatch` | src/ui/rendered_line.rs:169-199 | when every match state is well formed and some line holds matches, a viewport from the bottom that covers the whole buffer stops at the line `last_match` names, at its first hit |
| `RenderedLines.RenderedLineCollection.ThreeLineExample` | src/ui/rendered_line.rs:140-199 | for lines of heights 1, 2 and 1 with hits on rows 0 and 1 of the middle line only, the second hit is 2 rows from the bottom, a 4-row viewport at the bottom stops at the middle line at hit 0, and `last_match` is hit 1 of that line |

## Left out

- Painting through ncurses (`wmove` and `Line::print` in `print`, the `LineHighlighter` in `highlight`) is not modelled. A repaint is one step of the ghost counter `repaints`. The rows the highlighter reports are the `highlighted` parameter of `Search`, standing for `highlight`'s `Some(rows)`.
- `core::line::Line` is not part of this model. Its `contains` is modelled as literal, case-sensitive substring containment of the text. An empty needle is contained in every line, as with Rust's `str::contains`, so searching for the empty text reports a match on every line. Whether `Line::contains` treats the empty needle that way is not shown.
- `ui::printer::Viewport` is not part of this model. Its `limit()` is a field of the `Viewport` value. `ui::content::Content`, the container width and the vertical offset only serve painting and are not modelled.
- `src/ui/ui.rs` (terminal setup, menus, key and mouse decoding) is input/output glue and is not modelled.
- Heights are unbounded naturals. The i32 overflow of the height fold and the i32/usize casts in `is_match_in_viewport` and `viewport_match` are not modelled.
- NextMatch: does not model the overflow of `current_index + 1` at the largest `usize`.
- FindMatch: does not model the release-build wrap-around of `match_count() - 1` on an empty match list, where `find_match` returns `Some` with a match index of `usize::MAX`; the `Findable` precondition requires that case away, as a debug build panics there.
- Search: does not state that the new match state is strictly increasing and within the line's height, because only the highlighter, which is outside this model, establishes that. `WellFormed` names that property, and `FullViewportFindsLastMatch` assumes it.
- `MatchCount`, `Len`, `Get`, `SumHeights` (the `Height` fold of lines 219-229), `Height`, `HeightUpToIndex`, `LastLinesHeight` and `Findable` (the condition under which `match_count() - 1` at line 254 does not underflow) carry no contract of their own. `MatchCount` is used by `AtLastHit` in the navigation contracts, `Get` by `Create`'s contract, `Len` by `IsEmpty`'s contract, and the height functions and `Findable` by the lemmas above.
