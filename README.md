# grep-lite: search and context windows, modelled in Dafny

grep-lite is a small line-oriented search tool. Given a pattern and a text
(an input file, the input argument itself when the file cannot be read, or
piped standard input), it prints every line that contains the pattern,
surrounded by a window of context lines, as numbered blocks between
separator lines.

This project models the search-and-context pipeline inside `main`
(`src/main.rs`):

- **Options** (`options.dfy`): the context radius, which defaults to 0 when
  `ctx_count` is absent, and the read-error fallback. That fallback replaces
  the sentinel text `error_reading_file` by the input argument, or by the
  empty text when there is none.
- **Matcher** (`matcher.dfy`): `Contains` is the literal, case-sensitive
  substring test, proved equal to "occurs at some position". `MatchIndices`
  is the list of matching line indices, in the order the loop records them.
- **Context** (`context.dfy`): `WindowAt` is the clamped window
  `[max(0, i-r), min(n-1, i+r)]` around a match. `CollectWindow` is the inner
  loop that walks `j` over `i.saturating_sub(r) ..= i + r` and keeps the
  indices that name a line. `Search` is the outer loop that fills `tags` and
  `ctx`. Both methods are proved equal to the specification functions.
- **Renderer** (`render.dfy`): the printed report as a sequence of lines.
  It is one 50-dash separator, then for each window its lines and another
  separator. The line at position `len/2` of a window carries `.====> `; every
  other line carries `.      `. `Render` is the outer printing loop and
  `RenderWindow` the inner one; together they are proved equal to `Report`.
- **Pipeline** (`pipeline.dfy`): `Run` chains the radius default, `Search`
  and `Render`. Worked examples sit beside it.

The highlighted line is the one at position `len/2` of the window, and it is
not always the match when clamping shortens a window. A cut on the left
only moves the highlight after the match. A cut of two or more lines on the
right only moves it before the match; a cut of exactly one line on the right
only leaves it on the match. Cut on both sides, the window is the whole
input and line `n / 2` is highlighted, wherever the match lies. The lemmas
in `context.dfy` cover these four cases and the uncut one. With at least
three lines, a match on the first line with radius 2 highlights line 1.

The line sequence is an input of the model. Splitting the text into lines is
not part of this model.

## Model

| member | source | states |
|---|---|---|
| `Options.ContextCount` | src/main.rs:48-51 | the radius is the given `ctx_count`, or 0 when it is absent |
| `Options.ResolveInput` | src/main.rs:107-112 | the sentinel text is replaced by the input argument, or by `""` when there is none; any other text is kept; the result is the sentinel only when the argument is itself the sentinel text |
| `Options.ResolveInputIdempotent` | src/main.rs:107-112 | applying the fallback a second time changes nothing |
| `Matcher.Contains` | src/main.rs:119 | the test holds whenever the term is a prefix of the line, and never when the term is longer than the line; `ContainsIffOccurs` gives the full equivalence |
| `Matcher.ContainsOccurs` | src/main.rs:119 | where the test holds, it returns a position at which the term occurs in the line |
| `Matcher.OccursContains` | src/main.rs:119 | where the term occurs at some position of the line, the test holds |
| `Matcher.ContainsIffOccurs` | src/main.rs:119 | the substring test holds exactly when the term occurs at some position of the line |
| `Matcher.MatchIndices` | src/main.rs:114-121 | the recorded indices are in range and strictly increasing; an index is recorded if and only if its line contains the term |
| `Context.Lo` | src/main.rs:124 | the saturating start `i - r` lies between `i - r` and `i` and is either 0 or exactly `i - r` |
| `Context.Hi` | src/main.rs:124-125 | the last kept index lies between `i` and the last line, at most `i + r`, and is either `i + r` or the last line |
| `Context.WindowAt` | src/main.rs:122-131 | a window has `Hi - Lo + 1` entries; entry `k` is line `Lo + k` with that line's text |
| `Context.WindowShape` | src/main.rs:124-129 | a window's indices are contiguous and ascending from `max(0, i-r)` to `min(n-1, i+r)`; it covers line `j` exactly when `j` is a line within distance `r` of `i`; it contains `(i, lines[i])` |
| `Context.WindowLength` | src/main.rs:124-129 | a window has between 1 and `2r+1` entries, and exactly `2r+1` when `r <= i` and `i + r <= n-1` |
| `Context.WindowRadiusZero` | src/main.rs:124-129 | with radius 0 a window is exactly `[(i, lines[i])]` |
| `Context.CenterEntry` | src/main.rs:141 | the highlighted entry at position `len/2` is an entry of the window |
| `Context.CenterIsMatchWhenUnclamped` | src/main.rs:141-145 | away from both ends of the input the highlighted entry is the match |
| `Context.CenterAfterMatchWhenLeftClamped` | src/main.rs:141-145 | cut on the left only, the highlighted line is line `(i + r + 1) / 2`, after the match; it is the match if and only if nothing was cut |
| `Context.CenterBeforeMatchWhenRightClamped` | src/main.rs:141-145 | cut on the right only, the highlighted line never follows the match; it precedes it if and only if `i + r > n` |
| `Context.CenterMissesFirstLineMatch` | src/main.rs:124-145 | a match on line 0 with radius 2 and at least 3 lines has window lines 0, 1, 2, and line 1 is highlighted |
| `Context.CenterWhenBothClamped` | src/main.rs:124-145 | cut on both sides, the window is the whole input and the highlighted line is line `n / 2`, wherever the match lies |
| `Context.CollectWindow` | src/main.rs:123-130 | the inner loop over `i.saturating_sub(r) ..= i + r` that keeps existing lines yields exactly the clamped window |
| `Context.Contexts` | src/main.rs:121-131 | one window per recorded match, in the same order; window `k` contains `(tags[k], lines[tags[k]])`, is contiguous, starts at the saturating `tags[k] - r`, ends at `min(n-1, tags[k]+r)`, and every entry carries its own line's text |
| `Context.Search` | src/main.rs:114-133 | the single pass yields `tags` equal to the matching indices and `ctx` equal to their windows, one per tag, in order |
| `Renderer.Repeat` | src/main.rs:138 | `n` copies of a character: length `n`, every position that character |
| `Renderer.Separator` | src/main.rs:138 | the separator is exactly 50 dashes |
| `Renderer.Decimal` | src/main.rs:145 | an integer prints as a non-empty string of digits without a leading zero |
| `Renderer.DecimalRoundTrip` | src/main.rs:145 | reading the printed digits back gives the integer, so distinct ordinals and line numbers print differently |
| `Renderer.Label` | src/main.rs:145 | a line's label is `Match_` and the ordinal's digits, then `. line_` and the index's digits, 13 characters plus the two numbers |
| `Renderer.FormatLine` | src/main.rs:144-148 | a window line is its label, a seven-character marker and the line text |
| `Renderer.FormatLineShape` | src/main.rs:144-148 | the seven marker characters are `.====> ` on a highlighted line and a dot and six spaces on any other; the marker column holds `=` if and only if the line is highlighted; no window line equals a separator |
| `Renderer.Block` | src/main.rs:143-149 | one printed line per window entry, in order, each the entry's label and text; `BlockHighlightsMiddle` says which one is highlighted |
| `Renderer.BlockHighlightsMiddle` | src/main.rs:141-148 | within a window exactly the line at position `len/2` has `=` in its marker column |
| `Renderer.Framed` | src/main.rs:138-152 | a separator, then each group with a separator after it: `1 + Σ|group| + #groups` lines, starting with the separator |
| `Renderer.FramedAt` | src/main.rs:140-152 | group `k` occupies the lines from its start offset in order, and a separator follows it |
| `Renderer.Report` | src/main.rs:138-152 | the report has `1 + Σ|w| + |ctx|` lines and starts with a separator; with no windows it is exactly one separator |
| `Renderer.ReportAt` | src/main.rs:140-152 | window `k`'s entries appear in order from its offset, each with ordinal `k + 1` and highlighted exactly at `len/2`, followed by a separator |
| `Renderer.RenderWindow` | src/main.rs:141-149 | the inner printing loop yields exactly the window's block: one line per entry, in order, highlighted at `len/2` |
| `Renderer.Render` | src/main.rs:138-152 | the outer printing loop, with the inner loop as `RenderWindow`, produces exactly the report |
| `Pipeline.Output` | src/main.rs:114-152 | the report has `1 + Σ|w| + |tags|` lines: one separator, the lines of every match's window, and one separator per match |
| `Pipeline.Run` | src/main.rs:114-152 | searching and rendering with the defaulted radius produce exactly the report of the matches' windows |
| `Pipeline.DefaultRadiusWindows` | src/main.rs:48-51 | without a context count every window is the matched line alone |
| `Pipeline.NoMatchOutput` | src/main.rs:138-152 | when no line contains the pattern there are no matches, and the output is exactly one separator |
| `Pipeline.RadiusZeroBlock` | src/main.rs:124-148 | a radius-0 window prints as separator, the highlighted match line, separator |
| `Pipeline.ExampleAlphaMatches` | src/main.rs:118-121 | in `alpha, beta, alpha again, gamma` the pattern `alpha` matches lines 0 and 2 |
| `Pipeline.ExampleAlphaWindows` | src/main.rs:122-145 | with radius 1 the windows are lines 0-1 and 1-3; the first highlights line 1 and the second highlights line 2 |
| `Pipeline.ExampleNoMatch` | src/main.rs:138-152 | on the same lines, the pattern `zzz` prints only one separator |

## Left out

- Command-line parsing, the terminal check on standard input, the file read
  and the standard-input read loop (src/main.rs:37, 71-105) are I/O. The
  model starts from the text these produce (`ResolveInput`) and from the
  resulting lines (`Run`). The early returns for "no input given" and "stdin
  read error" are part of that I/O.
- `println!` is modelled as appending a string to the output sequence.
- The `verbose`, `use_regular` and `output_type` options are parsed but never
  used (src/main.rs:12, 16, 53-59). The code has no pattern-mode (regular
  expression) matching, no structured output, and no distance indicator on
  non-highlighted lines. The code is followed here.
- Splitting the text into lines (`str::lines`, with its trailing-newline and
  `\r\n` rules) is a library routine. The model takes the line sequence as
  given.
- `Search`: requires `ctx_count >= 0`. The code converts a negative
  `ctx_count` to `usize`, which wraps, and `i + ctx_lines` then overflows.
  The code does not clamp a negative count to 0, so the model does not
  either. `Run` carries the same requirement.
- The repeated `lines().nth(j)` rescan is modelled as direct indexing into
  the line sequence, which gives the same line.
- The `u32` and `i32` casts of line indices (src/main.rs:121, 126) are
  lossless below 2^31 lines. Indices are natural numbers here, and the
  truncation for larger inputs is not modelled.
- Running twice on the same input gives the same output. Every member is a
  deterministic function of its inputs, so no separate lemma states this.
- A readable file whose whole content is exactly `error_reading_file` cannot
  be told apart from a read failure. `ResolveInput` replaces it by the path,
  as the code does. Piped input is empty or ends in a newline, so it never equals
  the sentinel.
