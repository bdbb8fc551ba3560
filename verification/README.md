# rhonetyping typing engine in Dafny

This project models the core of rhonetyping, a terminal typing-speed trainer. The model covers three things:

- **The session engine** (`src/app.rs`, module `Session`). This is the `App` value: the screen (Menu, Typing, Results), the menu selection, and the round. The round is the text, one `CharState` per character, the cursor, the error count, the start and finish timestamps, and the live words-per-minute and accuracy figures. Each `&mut self` method becomes a pure function from the old `App` to the new one.
- **Key dispatch** (`src/main.rs`, module `Dispatch`). `handle_menu`, `handle_typing` and `handle_results` decide which command a key reaches on which screen. One iteration of the `run` loop is modelled too: the Ctrl+C exit, the quit check, and the tick that runs while the typing screen is showing.
- **The snippet corpus** (`src/snippets.rs`, module `Snippets`). This covers the three languages, their menu order and labels, the per-language pools, and `random_snippet`, which picks one entry and strips the newlines around it.

Module `Scenarios` works through short rounds on the text "cat".

The data model maps onto the source's types as follows:

| datatype | source |
|---|---|
| `Snippets.Language` | src/snippets.rs:4-9 |
| `Session.Screen` | src/app.rs:4-9 |
| `Session.CharState` | src/app.rs:11-16 |
| `Session.App` | src/app.rs:18-39 (the `snippet` string aside) |
| `Dispatch.KeyCode`, `Dispatch.KeyEvent` | the crossterm key codes and modifiers read at src/main.rs:52-54 and matched at src/main.rs:76-102 |

Conventions:

- Clock readings are `real` seconds and arrive as parameters. `type_char` reads the clock twice before it returns: once to stamp the start of a round (src/app.rs:118), and once in `update_stats` (src/app.rs:156). These are `now` and `later` in `Session.TypeChar`. The first keystroke's rate is therefore measured over the short gap between them (`Session.FirstKeystrokeRate`).
- The random draw is a `pick: nat`. Entry `pick % |pool|` is chosen, so every entry is reachable.
- `f64` values are modelled as `real`.
- `Instant - Instant` saturates at zero, as `Instant::duration_since` does.

The model follows the code in four places where the interface or the names suggest another reading:

- Retry (`restart_session`) draws a fresh random text, exactly like `new_snippet`. It does not replay the same text, although the results screen offers "enter/r retry" and "n new snippet" as separate actions (src/ui.rs:269).
- `go_to_menu` leaves the round untouched, although the menu offers no way back into it: starting from the menu always loads a new text.
- A text can never be empty, because every pool entry ends in a non-newline character. If a text were empty, `type_char` would return at its guard and the round would never reach Results.
- Accuracy is recomputed only while something is typed. Erasing a lone wrong character leaves the old accuracy, 0, in place, even though no position is wrong any more. `Session.Backspace` states this for every round, and `Session.ErasingAllKeepsAccuracy` and `Scenarios.ErasedSlipKeepsAccuracy` spell it out.

The `usize` subtraction `typed - errors` is modelled as a precondition, `SubtractionSafe`, on the state that `update_stats` sees. `Session.WellFormedIsSafe` proves that the round invariant implies it. The commands themselves do not demand the invariant.

## Model

| member | source | states |
|---|---|---|
| `Snippets.Label` | src/snippets.rs:12-18 | every language has a non-empty label |
| `Snippets.LabelsDistinct` | src/snippets.rs:12-18 | no two languages share a label |
| `Snippets.MenuIndexOf` | src/snippets.rs:21 | the menu lists every language, each at exactly one index |
| `Snippets.Pool` | src/snippets.rs:24-28 | every language's pool is non-empty, so the random choice cannot fail, and every entry ends in a non-newline character |
| `Snippets.LeadingNewlines` | src/snippets.rs:30 | the leading run that `trim_matches` removes: at most the length, all newlines, and followed by a non-newline when anything follows |
| `Snippets.TrimEnd` | src/snippets.rs:30 | the result is a prefix of the input; everything dropped is a newline; the result does not end with a newline |
| `Snippets.Trim` | src/snippets.rs:30 | the result is the contiguous slice left after removing the maximal leading and trailing newline runs; it neither starts nor ends with a newline; interior characters, including newlines, are kept in order |
| `Snippets.TrimKeepsText` | src/snippets.rs:30 | trimming a string that ends in a non-newline leaves a non-empty string |
| `Snippets.TrimOfClean` | src/snippets.rs:30 | trimming a string with no newline at either end changes nothing |
| `Snippets.TrimIdempotent` | src/snippets.rs:30 | trimming twice equals trimming once |
| `Snippets.RandomSnippet` | src/snippets.rs:23-31 | the snippet is non-empty, has no newline at either end, and is the trimmed form of some entry of the language's own pool |
| `Snippets.EveryEntryReachable` | src/snippets.rs:29 | every pool entry is returned, trimmed, for some draw |
| `Session.Count` | src/app.rs:159-161 | the count of a state is at most the length; it is zero exactly when no position has that state, and full exactly when every position has it |
| `Session.TypedSplit` | src/app.rs:159-166 | in a well-formed round, the correct and wrong positions together number exactly `cursor`, and the untyped ones number the rest |
| `Session.Since` | src/app.rs:156 | elapsed time is never negative, and it is the exact difference when the clock has not gone back |
| `Session.WordsPerMinute` | src/app.rs:158-162 | for a positive elapsed time, the rate is non-negative and rate × minutes equals correct characters / 5 |
| `Session.AccuracyPercent` | src/app.rs:164-166 | for at least one typed character and no more errors than typed, accuracy × typed equals 100 × (typed − errors); it lies in [0, 100] and is 100 with no errors |
| `Session.UpdateStats` | src/app.rs:154-169 | only `wpm` and `accuracy` change, and nothing changes before the first keystroke. Once time has passed, wpm is non-negative and wpm × minutes equals correct characters / 5. Once something is typed, accuracy × typed equals 100 × (typed − errors) and lies in [0, 100]; it is 100 with no errors and unchanged with nothing typed |
| `Session.Tick` | src/app.rs:148-152 | only the statistics change; a finished or unstarted round is left exactly as it is |
| `Session.Elapsed` | src/app.rs:171-177 | zero before the first keystroke; start + elapsed = finish once finished; start + elapsed = now while running |
| `Session.StatsFreeze` | src/app.rs:148-177 | once `finished_at` is set, `tick` changes nothing and `elapsed` no longer depends on the clock |
| `Session.Progress` | src/app.rs:179-182 | 0 for an empty text; otherwise progress × length equals cursor, it lies in [0, 1], and it is 1 exactly when the cursor is at the end |
| `Session.LoadSnippet` | src/app.rs:64-75 | yields a fresh, well-formed round on a non-empty text drawn from the current language, all positions untyped; the screen, menu, language and quit flag are kept |
| `Session.New` | src/app.rs:42-62 | starts on the menu, with its first entry selected, an English text loaded as a fresh round, and no quit request |
| `Session.MenuNext` | src/app.rs:77-79 | only the selection changes; it stays in range, moves down one, and wraps from the last entry to the first |
| `Session.MenuPrev` | src/app.rs:81-87 | only the selection changes; an in-range selection stays in range, moves up one, and wraps from the first entry to the last |
| `Session.MenuNextPrevInverse` | src/app.rs:77-87 | for an in-range selection, next then previous, and previous then next, both restore the state |
| `Session.StartSession` | src/app.rs:89-93 | adopts the selected menu language and shows a fresh round of a text from that language's pool |
| `Session.GoToMenu` | src/app.rs:95-97 | shows the menu and leaves every other field, the round included, as it was |
| `Session.Quit` | src/app.rs:99-101 | raises the quit flag and changes nothing else |
| `Session.RestartSession` | src/app.rs:103-106 | shows a fresh round in the same language, with a text from a new draw |
| `Session.NewSnippet` | src/app.rs:108-111 | shows a fresh round in the same language, with a text from a new draw |
| `Session.RestartIsNewSnippet` | src/app.rs:103-111 | retry and new-snippet are the same command, and the retried text does not depend on the text just typed |
| `Session.Advance` | src/app.rs:117-127 | the cursor moves on by one. The position it leaves becomes Correct exactly when `c` matches and Wrong exactly when it does not, and `errors` grows by one exactly on a mismatch. Every other position is unchanged, `started_at` is set only if absent, and nothing else changes |
| `Session.AdvanceKeepsWellFormed` | src/app.rs:117-127 | judging a character and advancing the cursor preserves the round invariant |
| `Session.TypeChar` | src/app.rs:113-134 | At or past the end it is a no-op. Otherwise the cursor advances by one, and position `cursor` becomes Correct exactly when `c` matches and Wrong exactly when it does not. `errors` grows by one exactly on a mismatch, and every other position is unchanged. `started_at` is set only if absent. Reaching the end sets `finished_at` and shows Results; otherwise the screen and `finished_at` are unchanged. The text, language, menu and quit flag are kept. When a character is judged, the statistics are refreshed at `later`. Once time has passed since the start, wpm × minutes equals the new number of Correct positions / 5; with no time passed, wpm is kept. Accuracy × cursor equals 100 × (cursor − errors) and lies in [0, 100]. The round invariant is preserved |
| `Session.SaturatingDec` | src/app.rs:142 | one less than a positive count, never below zero; only zero is left as it is |
| `Session.Retreat` | src/app.rs:140-144 | the cursor steps back by one and that position becomes Untyped. `errors` drops, saturating, only when that position was Wrong. Every other position and every other field is unchanged |
| `Session.RetreatKeepsWellFormed` | src/app.rs:140-144 | stepping back and clearing the vacated position preserves the round invariant |
| `Session.Backspace` | src/app.rs:136-146 | At cursor 0 it is a no-op. Otherwise the cursor steps back by one and that position becomes Untyped; every other position is unchanged, and errors drop, saturating, only when that position was Wrong (in a well-formed round, the drop happens exactly then). Away from cursor 0 the statistics are refreshed. Once started and with time passed, wpm × minutes equals the remaining Correct positions / 5. While something is still typed, accuracy × cursor equals 100 × (cursor − errors). At the new cursor 0, accuracy keeps its old value. The screen and both timestamps never change, and the round invariant is preserved |
| `Session.WellFormedIsSafe` | src/app.rs:164-166 | in a well-formed round errors ≤ cursor, so neither `type_char` nor `backspace` can index out of range or make `typed - errors` underflow |
| `Session.FirstKeystrokeRate` | src/app.rs:117-128 | on a fresh round, the first correct character is measured over the gap between the start stamp and the statistics reading: wpm × gap equals 12 |
| `Session.ErasingAllKeepsAccuracy` | src/app.rs:136-146 | erasing the only typed position leaves cursor 0 and no errors, yet keeps the accuracy shown before |
| `Session.TypeThenBackspace` | src/app.rs:113-146 | from a well-formed round with text left, typing any character and erasing it restores the cursor, the character states and the error count; the start time stays set |
| `Dispatch.HandleKey` | src/main.rs:58-62 | the handler of the current screen: only q on the menu raises the quit flag, only the menu can change the language, and the typing screen never changes the text |
| `Dispatch.HandleMenu` | src/main.rs:76-84 | Up/k selects the previous entry, Down/j the next, Enter/space starts a round, and q quits; every other key changes nothing. Only q raises the quit flag, and only Enter/space touches the round or the screen |
| `Dispatch.HandleTyping` | src/main.rs:86-93 | Esc goes to the menu and Backspace erases. Every character key, q, r and n included, is typed and advances the cursor while text is left. Up, Down, Enter and unlisted keys do nothing. The typing screen never quits and never loads a new text |
| `Dispatch.HandleResults` | src/main.rs:95-102 | Enter/r retries, n asks for a new text, and Esc/q goes to the menu; other keys do nothing. The result is the old state, the same state on the menu, or a fresh round, so no key types or erases here |
| `Dispatch.Step` | src/main.rs:47-74 | from a state satisfying the loop invariant, the next state satisfies it too; a stopped loop's state satisfies it up to the quit flag |
| `Dispatch.TickKeepsValid` | src/main.rs:69-72 | the tick on the typing screen is safe to run and keeps the loop invariant |
| `Dispatch.InterruptStops` | src/main.rs:53-56 | Ctrl+C stops the loop on every screen, before any handler runs, with the state unchanged |
| `Dispatch.StopsOnlyOnInterruptOrMenuQuit` | src/main.rs:53-65 | the loop stops exactly on Ctrl+C or on q in the menu, and q in the menu is the only way the quit flag rises |
| `Dispatch.TickOnlyWhileTyping` | src/main.rs:69-72 | with no key, the loop ticks the statistics on the typing screen and leaves every other screen exactly as it was |
| `Dispatch.TypingEntersFresh` | src/main.rs:58-62 | the typing screen is entered only on a fresh round |
| `Dispatch.ResultsOnlyOnCompletion` | src/main.rs:58-62 | the results screen is entered only from the typing screen, by a character key that moves the cursor onto the end of the text |
| `Dispatch.ResultsStayPut` | src/main.rs:95-102 | a state that stays on the results screen is unchanged |
| `Dispatch.ValidAfterKey` | src/main.rs:58-62 | every per-screen handler keeps the loop invariant, the quit flag aside |
| `Dispatch.ValidAfterMenu` | src/main.rs:76-84 | every menu key keeps the loop invariant, the quit flag aside |
| `Dispatch.ValidAfterResults` | src/main.rs:95-102 | every results key keeps the loop invariant |
| `Dispatch.ValidAfterTyping` | src/main.rs:86-93 | on the typing screen the handler's preconditions hold, and its result satisfies the loop invariant |
| `Dispatch.ValidAfterTypeChar` | src/app.rs:113-134 | typing a character on the typing screen keeps the loop invariant; completing the text yields a timed round on the results screen |
| `Dispatch.ValidAfterBackspace` | src/app.rs:136-146 | erasing on the typing screen keeps the loop invariant |
| `Dispatch.NewIsValid` | src/main.rs:38 | the initial `App` satisfies the loop invariant |
| `Dispatch.Run` | src/main.rs:47-74 | over any finite sequence of polls, every state the loop reaches satisfies the invariant |
| `Scenarios.TypeC` | src/app.rs:113-134 | on a fresh "cat", typing "c" stamped at 1 s, with statistics read at 1.001 s, gives one Correct position, accuracy 100 and 12000 wpm |
| `Scenarios.TypeA` | src/app.rs:113-134 | after "c" at 1 s, typing "a" at 2 s gives two Correct positions and 24 wpm |
| `Scenarios.TypeLastT` | src/app.rs:113-134 | after "ca", typing the last "t" at 3 s finishes the round on Results with 18 wpm |
| `Scenarios.TypeX` | src/app.rs:113-134 | after "c", typing "x" at 2 s marks the second position Wrong, counts one error, and gives 12 wpm and 50% accuracy |
| `Scenarios.TypeT` | src/app.rs:113-134 | after "cx", typing "t" at 3 s finishes the round on Results with accuracy 200/3 |
| `Scenarios.TypeFirstX` | src/app.rs:113-134 | on a fresh "cat", typing "x" first gives one Wrong position, one error, accuracy 0 and 0 wpm |
| `Scenarios.TypedCleanly` | src/app.rs:113-134 | typing "cat" on "cat" yields three Correct positions, no errors, accuracy 100, Results, and both timestamps |
| `Scenarios.TypedWithSlip` | src/app.rs:113-134 | typing "cxt" on "cat" yields Correct, Wrong, Correct, one error, accuracy 200/3, and Results |
| `Scenarios.ErasedAfterSlip` | src/app.rs:136-146 | erasing the correct last character after "cxt" keeps the one error, and the round stays finished |
| `Scenarios.ErasedSlipKeepsAccuracy` | src/app.rs:164-167 | erasing a lone wrong first character restores cursor 0 and no errors, but leaves accuracy at 0 |

## Left out

- `src/ui.rs` is not modelled. It is layout, colours and widgets, and only reads the state.
- Terminal setup and teardown, the panic hook, raw mode and the 100 ms `event::poll`/`event::read` (src/main.rs:18-51) are left out. The event read in an iteration is the `event` parameter of `Dispatch.Step`. `None` stands for a poll timeout or a non-key event. Key-release events are not distinguished.
- The clock is not modelled. One loop iteration gets two readings, `now` and `later`. `now` stamps the start of a round. `later` serves the statistics, the finish stamp and the tick. In the program, `finished_at` (src/app.rs:131) and the tick's `update_stats` are further readings, nanoseconds to microseconds after the statistics reading. The model makes them equal to it. `backspace` reads the clock only in `update_stats`, and that reading is `later`.
- Randomness is not modelled. `thread_rng().choose` becomes the caller's `pick`.
- The corpus is partial. All ten English entries are transcribed. Of the ten Rust entries and the ten Python entries, only the first three of each are transcribed: `main`, `fibonacci` and `word_count` for Rust, and `fibonacci`, `most_common` and `binary_search` for Python. The other entries add nothing to the trimming logic.
- The `snippet: String` field is not modelled. `chars` holds its characters, and the UI draws from `chars`.
- `f64` rounding and display formatting of `wpm` and `accuracy` are not modelled; the model computes exact reals.
- `usize` overflow of `cursor`, `errors` and `selected_menu + 1` is not modelled. The invariant bounds them by the text length and the menu size.
- Dispatch.Step: requires the loop invariant `Valid`. `Dispatch.NewIsValid` and the contract of `Step` show that every state the loop reaches satisfies it, so the requirement excludes no state the program can be in.
