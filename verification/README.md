# counter: a tally counter kept in a file

This project models the core of `counter`, a terminal tally counter in Rust.
It shows a signed 64-bit count, and the user raises or lowers it with single
keystrokes. After every change the count is written back to a file, so the
next run carries on from where the last one stopped.

The model is functional. The file is a character sequence plus a cursor, the
counter is an immutable record, and the terminal input is a finite sequence of
key events. Every operation is a pure function.

- `Int64`: the `i64` range as a subset type, plus `checked_add` and
  `checked_sub`.
- `Decimal`: the file format. `i64::to_string` writes the count.
  `BufRead::read_line`, `str::trim_end` (Unicode whitespace) and
  `i64::from_str` read it back. `from_str` accepts an optional sign, leading
  zeros, and nothing else.
- `Files`: the three file operations `persist` uses: `seek`, `set_len` and
  `write_all` at the cursor.
- `Keys`: key events, crossterm's case normalisation of key events (its
  equality and hashing apply it, so `HashMap` lookups see it), and the two
  key maps of the source (the main prompt and the overwrite confirmation).
  It also models `get_character_choice`: skip events until one is bound in
  the map. It also models `user_ok_with_overwrite`.
- `Counter`: `FileCounter::new` with its precedence rules (explicit value, then
  the first line of the file, then 0) and its confirmation for non-counter
  content. Also `persist`, `increment` and `decrement`.
- `Controller`: the main loop of `main_real`, and the exit status that `main`
  produces. The loop is proved equal to a second definition
  (`Controller.LoopIsFold`): a per-event state machine written straight
  from the key bindings. A terminal that
  cannot be used (no controlling terminal, say) is the `terminalOk`
  parameter: the program then exits with 1, and when `new` needed no
  confirmation it has already rewritten the file (src/main.rs:139, 206).

The model follows the code where its behaviour is easy to mistake:
- `increment` and `decrement` call `persist` even on overflow and underflow
  (src/main.rs:153, src/main.rs:167). It rewrites the same count, so the
  file does not change.
- Among files whose first line can be read, only an empty one starts at 0
  silently. A file that is not empty but whose first line trims to nothing
  still triggers the confirmation. One example is
  a file holding a single newline. The emptiness test is on the untrimmed line
  (src/main.rs:125).
- Accepting the confirmation rewrites the file at once. `new` itself persists
  (src/main.rs:139); the write does not wait for the first change.
- If `read_line` fails, the count is 0, no prompt appears, and the file is
  overwritten (src/main.rs:122). The read fails on a first line that is not
  UTF-8 and on read errors. `New` takes this case as its `lineReadable`
  parameter. Such a file is replaced by "0" without the confirmation that
  guards every other non-counter file against silent data loss.

## Model

| member | source | states |
|---|---|---|
| Int64.CheckedAdd | src/main.rs:144 | `checked_add` gives None exactly when the true sum is outside the i64 range, and the true sum otherwise |
| Int64.CheckedSub | src/main.rs:158 | `checked_sub` gives None exactly when the true difference is outside the i64 range, and the true difference otherwise |
| Int64.CheckedSubUndoesAdd | src/main.rs:144-164 | subtracting what was just added gives back the start; a step by one fails only at i64::MAX going up and at i64::MIN going down |
| Decimal.NatDigits | src/main.rs:174 | the digits of a natural number: at least one, all ASCII digits, no leading zero |
| Decimal.Render | src/main.rs:174 | the written count starts with `-` exactly when it is negative, holds only digits after that, and ends in a digit |
| Decimal.ParseShape | src/main.rs:123 | `Decimal.Parse` models `i64::from_str`; an accepted string is an optional sign followed by digits, with no whitespace anywhere; a negative result needs a leading `-` |
| Decimal.ParseAccepts | src/main.rs:123 | `from_str` accepts any number of leading zeros and an optional `+` before the digits of a non-negative i64, or `-` before those of a non-positive one (i64::MIN included), and returns that value |
| Decimal.ParseAcceptsOnly | src/main.rs:123 | every string `from_str` accepts is one of those padded, optionally signed forms of the value it returns |
| Decimal.ReadLine | src/main.rs:120-122 | the first line is a prefix of the file, empty only for an empty file |
| Decimal.ReadLineShape | src/main.rs:120-122 | the first line runs up to and including the first newline, or to the end when there is none |
| Decimal.TrimEnd | src/main.rs:123 | trimming keeps a prefix that does not end in whitespace and drops only whitespace |
| Decimal.LoadedValue | src/main.rs:120-123 | a file that loads starts with a sign or a digit: leading whitespace is not skipped |
| Decimal.LoadedValueSplits | src/main.rs:120-123 | a file that loads is a string `from_str` accepts, giving the loaded value, followed by a rest whose first line is whitespace |
| Decimal.LoadedValueOfParsedPrefix | src/main.rs:120-123 | conversely, a string `from_str` accepts followed by a rest whose first line is whitespace loads as that string's value |
| Decimal.ParseRender | src/main.rs:174 | parsing what `persist` writes gives back the same i64, for every i64 |
| Decimal.RenderInjective | src/main.rs:174 | two counts are written the same exactly when they are equal |
| Decimal.LoadRenderRoundTrip | src/main.rs:120-123 | content made of a rendered count followed by anything whose first line is whitespace loads as that count |
| Files.SetLenEffect | src/main.rs:173 | `Files.SetLen` models `File::set_len`: `set_len(n)` leaves n characters: the old ones that fit, then NUL padding; the cursor does not move |
| Files.WriteEffect | src/main.rs:174 | `Files.Write` models `write_all`: a write puts the data at the cursor, leaves every other old character in place, pads a gap with NULs and moves the cursor past the data |
| Files.OverwriteWithoutTruncateLeavesResidue | src/main.rs:172-174 | without the `set_len(0)`, writing a shorter value at offset 0 leaves the tail of the old content behind |
| Keys.NormalizeUnshifted | src/main.rs:49 | `Keys.Normalize` models crossterm's `normalize_case`, which its key equality applies; a map key without Shift and without a capital letter (`key('q')`, `key('+')`, Backspace, Ctrl-C) matches only that exact event |
| Keys.NormalizeCapital | src/main.rs:49 | under crossterm's key equality, `key('Q')` matches Q with or without Shift and q with Shift, and nothing else |
| Keys.NextChoice | src/main.rs:37-54 | the choice is the map's entry for the first event the map finds; every earlier event is not found; no choice exactly when no event is found |
| Keys.UserOkWithOverwrite | src/main.rs:66-97 | the dialog stays unanswered exactly when no event is bound in the confirmation map; an answer consumes input |
| Keys.ConfirmSkipsUnbound | src/main.rs:48-52 | an unbound key or a non-key event does not change the dialog's outcome |
| Keys.ConfirmKeysMatchBindings | src/main.rs:70-84 | the confirmation map finds exactly y, n and q (each lower-case, upper-case with or without Shift, or lower-case with Shift) and Ctrl-C, answering yes, no and quit |
| Keys.ConfirmFirstBoundKey | src/main.rs:70-95 | a yes press accepts, a no press refuses, and a quit press exits, each leaving the remaining input |
| Counter.CursorAfterFirstLine | src/main.rs:120-122 | after reading the first line the cursor is past that line, at most one buffer capacity beyond it, and at a whole number of buffer fills unless the file ended |
| Counter.Persist | src/main.rs:171-180 | `Files.Seek`, `Files.SetLen` and `Files.Write` in sequence, as at lines 172-174; afterwards the file holds exactly the rendering of the count, whatever it held before and wherever the cursor was; the count and sync flag do not change |
| Counter.Increment | src/main.rs:143-155 | below i64::MAX the count goes up by one, at i64::MAX it stays; the file then holds the new count, so at the limit the file does not change |
| Counter.Decrement | src/main.rs:157-169 | above i64::MIN the count goes down by one, at i64::MIN it stays; the file then holds the new count, so at the limit the file does not change |
| Counter.DecrementFromZero | src/main.rs:157-169 | decrementing 0 gives -1 and the file reads "-1" |
| Counter.DecrementUndoesIncrement | src/main.rs:143-169 | below i64::MAX, decrementing after incrementing restores the count and the file's content |
| Counter.New | src/main.rs:102-141 | an explicit value wins over the file. Otherwise a parseable first line sets the count. Otherwise 0, silently for an empty or unreadable file. For other content the user's answer decides: yes gives 0, no gives InvalidData, quit exits with 1, and an unusable terminal gives an error. Those three outcomes leave the file untouched. A started counter has rewritten the file to its count |
| Counter.StartFromRenderedFile | src/main.rs:115-139 | a file holding a rendered count, with or without a trailing newline, whitespace or further lines, starts at that count without asking and is rewritten to just the rendering |
| Counter.NewlineOnlyFileAsks | src/main.rs:121-130 | a file holding only a newline does not parse, yet is not empty; the user is asked, refusing fails the start, and so does a terminal that cannot ask |
| Controller.RunLoop | src/main.rs:206-217 | the loop keeps the file equal to the count's rendering, and it keeps the sync flag |
| Controller.MenuKeysMatchBindings | src/main.rs:188-204 | the main map finds exactly `+`, `=` and space (increment), `-`, `_` and Backspace (decrement), and q, Q with or without Shift, q with Shift and Ctrl-C (quit) |
| Controller.LoopIsFold | src/main.rs:208-217 | the loop ends with the same counter as the per-event state machine, and it quits exactly when that machine quits |
| Controller.QuitsIffQuitKey | src/main.rs:214 | the loop quits exactly when some event in the input is a quit press |
| Controller.NetCount | src/main.rs:208-216 | if no increment is pressed at i64::MAX and no decrement at i64::MIN along the way (`NoLimitHit`, which allows the count to touch a limit and come back), the final count is the start, plus the increment keys, minus the decrement keys, counting only keys pressed before the first quit |
| Controller.HeadroomNoLimitHit | src/main.rs:208-216 | room above the start for every increment and, separately, below it for every decrement before the quit is enough for no limit to be hit |
| Controller.NearLimitAndBack | src/main.rs:208-216 | from i64::MAX - 1, pressing minus, plus, minus, plus ends at i64::MAX - 1, though the start has no room for both increments |
| Controller.UnboundEventIgnored | src/main.rs:48-52 | an unbound key or a non-key event changes neither the count nor the file |
| Controller.QuitKeyStops | src/main.rs:214 | a quit press (a Shift-reported Q included) ends the loop with the counter as it was, so nothing more is persisted |
| Controller.RunProgram | src/main.rs:183-231 | the process exits with 0 or 1. With a usable terminal, an exit with 1 leaves the file exactly as it was found. Without one, the process always exits with 1, and after an explicit start value the file holds that value |
| Controller.UnusableTerminal | src/main.rs:183-231 | without a usable terminal, the file ends either as found or holding a count that loads |
| Controller.NormalExitRestarts | src/main.rs:120-139 | after exit status 0, the file loads as a count on the next start, no question is asked, and the rewrite leaves the file unchanged |
| Controller.QuitAtOnce | src/main.rs:185-214 | quitting right after starting with an explicit value exits with 0 and leaves that value in the file |

## Left out

- Terminal output: clearing the line, printing prompts and notices, hiding
  and showing the cursor (src/main.rs:43-45, 86-91, 146-148, 160-162,
  206-207, 218-220). What they print is not modelled. Whether these calls
  succeed is the `terminalOk` parameter.
- Controller.RunProgram: the model covers a terminal that fails from its
  first call on, not one that fails partway. Examples are an `event::read`
  error, or a failed clear, flush or raw-mode toggle after earlier calls
  succeeded. Each such failure makes `main` exit with 1, leaving whatever
  the last persist wrote.
- The blocking `event::read` becomes a finite sequence of events. If the
  input runs out before a bound key arrives, the model reports
  `Waiting`/`Prompting`/`Blocked`, where the program would keep waiting.
- Argument parsing (src/main.rs:14-29). `RunProgram` receives the parsed path
  content, start value and `--no-sync` flag. Printing errors in `main` is also
  left out; only the exit status is kept.
- File system failures: errors from `open`, `seek`, `set_len`, `write_all`,
  `flush` and `sync_data`. Every such call succeeds in the model.
- `flush` and `sync_data` (src/main.rs:175-178) only affect durability. The
  sync flag is carried along and has no effect on content.
- `HashMap` is modelled as a Dafny `map` keyed by normalised key events. The
  two `panic!` arms (src/main.rs:96, 215) cannot be reached: the map values
  have types that admit only the handled characters.
- crossterm's `KeyEvent` also has a `state` field, which its equality
  compares. It is not modelled. `KeyEvent::new` leaves it empty, and
  terminals report it only under keyboard enhancement flags, which the
  program does not enable.
- The file is modelled as Unicode characters, not bytes. The UTF-8 check in
  `read_line` becomes the `lineReadable` parameter of `New`. Where
  `BufReader` leaves the cursor is counted in characters, assuming each
  refill fills the buffer. `persist` seeks to 0 in any case.
- Rust's overflow check while accumulating digits in `i64::from_str` becomes
  one range check on the final value. Both reject the same strings.
