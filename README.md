# quot: the interactive line editor and the literal formatter

`quot` reads text from a file, from a pipe or from the keyboard and prints it
as a string literal: between double quotes, between single quotes, or as a
Rust raw string `r#"…"#`. This project models the interactive line editor the
program uses for keyboard input, together with the pure string and argument
logic of the binary, and proves properties of both.

- **The line editor** (`src/stdin_handler.rs`, `src/input.rs`). This is a
  state machine over three buffers: the line being edited, a cursor (a byte
  offset into that line), and the committed lines. The two files implement
  it twice:
  - `stdin_handler.rs` prints a numbered prompt (` 1> `, ` 2> `, …) and
    ends the session on Ctrl+C as well as on Enter on a blank line;
  - `input.rs` prints a fixed `> ` and ends the session only on Enter on a
    blank line.
- **Shared edits.** Every edit is stated once, as a function on an
  `EditorState` value (module `Editing`), for either prompt.
- **The class.** `LineEditor.Editor` holds the same buffers as fields that
  its methods update in place. Each method is proved to produce exactly the
  new state that the matching function gives.
- **The terminal column.** The column where the terminal shows its cursor is
  tracked as well: a ghost field of the class, and a plain field of
  `EditorState`.
  - After a key edit it is the column that the operation's last
    `MoveToColumn`, `MoveLeft` or `MoveRight` leaves.
  - After Enter, and after a later piece of a paste, the text is printed
    and the column is counted from it, at one column per printed character
    (see Left out).
  - The screen invariant `Synced` says that the column is the prompt width
    plus the cursor.
  - Every key keeps it. A `Paste` event does not (see Findings). The
    program never enables bracketed paste, so text pasted into the terminal
    reaches it as `Char` key events, which keep the invariant.
- **The two sessions.** `read_all_input` of `input.rs` and
  `read_keyboard_input` of `main.rs` are loops over the events the terminal
  delivers. Each is a method over a finite event list, proved equal to a
  fold of the per-event step (`Input.Outcome`, `Keyboard.KeyboardResult`).
  Their result is the committed lines joined by line feeds. The line still
  being edited when the session ends never appears in the result.
- **Prompt width.** `get_prompt_width` measures the very text
  `print_prompt_with_line_number` prints (`format!("{:2}> ", n).len()`). The
  width therefore matches the printed prompt for every line number, including
  line 100 and beyond, where the prompt grows to five columns
  (`Prompt.PromptWidthIsPrintedLength`).
- **The literal formatter** (`src/main.rs`):
  - `QuoteStyle::from_args`, a loop that drops the style flags (the last one
    wins);
  - the argument-count dispatch of `main`;
  - the `replace` chains of `print_result` for the Double and Single styles,
    proved to read back as the original text;
  - `find_raw_string_delimiter`, a loop proved to compute one `#` more than
    the longest run of quotes (see Findings);
  - the Raw literal `r` + delimiter + `"` + text + `"` + delimiter.

Characters in the editor's lines are restricted to those UTF-8 encodes in one
byte (`Text.AsciiChar`). So a character index is the byte offset that
`String::insert`, `String::remove` and `len` use. Whitespace is Rust's
`char::is_whitespace`.

## Model

| member | source | states |
|---|---|---|
| Text.TrimStart | src/stdin_handler.rs:252 | `trim_start` never lengthens the piece, and what it leaves is empty or starts with non-whitespace |
| Text.TrimEnd | src/stdin_handler.rs:49 | `trim_end` never lengthens the line, and what it leaves is empty or ends in non-whitespace |
| Text.Trim | src/stdin_handler.rs:49 | `trim` never lengthens the line, and what it leaves is empty or starts and ends with non-whitespace |
| Text.TrimStartDropsLeadingWhitespace | src/stdin_handler.rs:252 | `trim_start` leaves a suffix of the piece; what it drops is all whitespace; what it keeps is empty or starts with non-whitespace |
| Text.TrimEndDropsTrailingWhitespace | src/stdin_handler.rs:49 | `trim_end` (half of `trim`) leaves a prefix; what it drops is all whitespace; what it keeps is empty or ends in non-whitespace |
| Text.TrimEmptyIffBlank | src/stdin_handler.rs:49 | `line.trim().is_empty()` holds exactly when every character of the line is whitespace |
| Text.TrimmedEmpty | src/input.rs:66 | the blank-line test the editors evaluate is true exactly for all-whitespace lines |
| Text.IndexOf | src/stdin_handler.rs:249 | the split position `lines()` uses: no line feed before it, and a line feed at it unless it is the end |
| Text.Lines | src/stdin_handler.rs:249 | the pieces of `str::lines` hold no line feed, and there are none exactly when the text is empty |
| Text.Join | src/main.rs:108 | `join("\n")` of no lines is empty, and otherwise starts with the first line |
| Text.LinesOfJoin | src/main.rs:108 | splitting `join("\n")` of plain lines whose last is non-empty gives the same lines back |
| Text.JoinOfLines | src/main.rs:108 | joining the `lines()` of a text without carriage returns and without a final line feed restores the text |
| Text.JoinNonEmpty | src/main.rs:108 | the join of lines whose last is non-empty is non-empty |
| Text.InsertAt | src/stdin_handler.rs:98 | `String::insert`/`insert_str`: the prefix is kept, the piece follows it, the rest of the line is shifted right |
| Text.RemoveAt | src/stdin_handler.rs:144 | `String::remove`: the prefix is kept and the rest is shifted left by one |
| Text.RemoveInserted | src/stdin_handler.rs:324-334 | removing at a position the character just inserted there gives the line back |
| Prompt.Decimal | src/stdin_handler.rs:19 | the `{}` formatting of the line number holds only decimal digits |
| Prompt.DecimalRoundTrip | src/stdin_handler.rs:19 | the printed line number reads back as the number |
| Prompt.DecimalLength | src/stdin_handler.rs:26 | the printed number has as many characters as the number has digits |
| Prompt.NumDigitsMonotone | src/stdin_handler.rs:23-27 | a larger line number never has fewer digits |
| Prompt.PadLeft | src/stdin_handler.rs:19 | `{:2}` right-aligns the number in at least two columns: it ends with the number, padded with spaces on the left |
| Prompt.NumberedPrompt | src/stdin_handler.rs:18-21 | the printed prompt is at least four characters: spaces, then the line number, then `> ` |
| Prompt.PromptWidth | src/stdin_handler.rs:23-27 | the width is at least four, and at least the digit count plus two |
| Prompt.PromptWidthIsPrintedLength | src/stdin_handler.rs:18-27 | `get_prompt_width(n)` equals the length of the prompt printed for line `n` |
| Prompt.PromptWidthByLineNumber | src/stdin_handler.rs:23-27 | lines 1 to 99 have a four-column prompt; from line 100 on it is the digit count plus two, more than four |
| Prompt.Width | src/input.rs:122 | the column where the editable text starts is at least 2, the fixed `2` of input.rs or the numbered prompt's width |
| Prompt.WidthIsPromptLength | src/input.rs:43-46 | each editor's column arithmetic uses the length of the prompt it prints, `> ` or the numbered one |
| Prompt.WidthMonotone | src/stdin_handler.rs:43 | committing lines never makes the prompt narrower |
| Editing.Start | src/stdin_handler.rs:18-21 | the session starts with nothing typed or committed and the terminal cursor right after the first prompt |
| Editing.ColumnLeftOf | src/stdin_handler.rs:164-172 | `MoveLeft(1)` moves one column left and stays put only at column 0 |
| Editing.InsertChar | src/stdin_handler.rs:91-135 | insert at the cursor gives `line[..c] + [ch] + line[c..]` and cursor `c + 1`, with the terminal column at prompt width plus the new cursor |
| Editing.DeleteBackward | src/stdin_handler.rs:137-149 | Backspace at cursor 0 changes nothing; otherwise the character before the cursor is removed, the cursor moves back one and the column follows it |
| Editing.DeleteForward | src/stdin_handler.rs:151-162 | Delete at the end changes nothing; otherwise the character at the cursor is removed, the cursor stays and the column is at it |
| Editing.MoveLeft | src/stdin_handler.rs:164-172 | Left leaves the text alone, stops at 0 and otherwise moves the cursor back by one |
| Editing.MoveRight | src/stdin_handler.rs:174-186 | Right leaves the text alone, stops at the end and otherwise moves the cursor forward by one |
| Editing.MoveHome | src/stdin_handler.rs:188-196 | Home sets the cursor to 0 and the column right after the prompt |
| Editing.MoveEnd | src/stdin_handler.rs:198-210 | End sets the cursor to the line's length and the column after the last character |
| Editing.PressEnter | src/stdin_handler.rs:46-58 | Enter ends the session exactly on a blank line, then commits nothing; otherwise it commits the line, clears it, sets the cursor to 0 and the column after the next prompt |
| Editing.InsertPiece | src/stdin_handler.rs:255-263 | the first paste piece is inserted at the cursor and the cursor advances past it, while the column is left at the old cursor |
| Editing.PasteFirst | src/stdin_handler.rs:252-263 | the first piece loses its leading whitespace and is inserted at the cursor, the cursor advances past it, and no committed line changes |
| Editing.NewLinePiece | src/stdin_handler.rs:264-275 | a later piece commits the current line only when it is not blank, becomes the line, and puts the cursor and the column at its end |
| Editing.PasteNext | src/stdin_handler.rs:252-275 | a later piece only appends non-blank lines to the committed ones and keeps the terminal in step |
| Editing.PasteRest | src/stdin_handler.rs:251-276 | the later pieces in order only append non-blank lines; after at least one of them the cursor is at the end of the line and in step with the column |
| Editing.Paste | src/stdin_handler.rs:243-278 | `handle_paste_event` keeps the cursor within the line and only appends non-blank lines to the committed ones |
| Editing.PasteFirstFixed | src/stdin_handler.rs:259-263 | the corrected first piece leaves the same buffers as the code as written, and the column in step with the cursor |
| Editing.PasteFixed | src/stdin_handler.rs:243-278 | the corrected paste keeps the cursor within the line and only appends non-blank lines |
| Editing.GrewTransitive | src/stdin_handler.rs:53 | appending non-blank lines twice is appending non-blank lines |
| EditingFacts.PasteRestLast | src/stdin_handler.rs:270-271 | after the later pieces, the last trimmed piece is the line, with the cursor at its end |
| EditingFacts.InsertThenBackspace | src/stdin_handler.rs:324-334 | typing a character and then Backspace restores the line, the cursor and the committed lines from any state, and the terminal column too when it was in step |
| EditingFacts.BackspaceIsLeftThenDelete | src/stdin_handler.rs:137-162 | Backspace is Left followed by Delete |
| EditingFacts.EditsKeepSync | src/stdin_handler.rs:112-131 | insert, Backspace, Delete, Left, Right, Home and End all keep the column at prompt width plus cursor |
| EditingFacts.PasteOneLine | src/stdin_handler.rs:255-263 | a one-line paste inserts the trimmed line at the cursor, commits nothing, and leaves the column at the old cursor |
| EditingFacts.PasteSyncIff | src/stdin_handler.rs:259-263 | after a paste the column is in step with the cursor exactly when the paste does not have exactly one line with something left after trimming |
| EditingFacts.PasteDesyncExample | src/stdin_handler.rs:259-263 | pasting `ab` into the empty first line leaves the cursor at 2 but the column at 4, out of step |
| EditingFacts.PasteFixedKeepsSync | src/input.rs:250 | the corrected paste always keeps the column in step and otherwise leaves exactly the buffers of the code as written |
| EditingFacts.PasteRestIgnoresColumn | src/stdin_handler.rs:264-275 | the later pieces do not depend on the column they start from |
| EditingFacts.PasteManyLines | src/stdin_handler.rs:395-407 | after a paste of several lines, the last trimmed piece is the line, with the cursor at its end |
| EditingFacts.PasteAfterFirst | src/stdin_handler.rs:264-275 | after the first piece, the later pieces leave the last trimmed piece as the line |
| LineEditor.Editor.constructor | src/main.rs:69-77 | a new editor holds an empty line, cursor 0, no committed lines, and the column after the first prompt |
| LineEditor.Editor.MoveToNextLine | src/stdin_handler.rs:29-35 | `move_to_next_line` leaves the terminal at column 0 |
| LineEditor.Editor.PrintPrompt | src/input.rs:43-46 | printing the prompt at column 0 leaves the column at the prompt's width |
| LineEditor.Editor.RedrawLineAfterInsert | src/input.rs:116-144 | the column ends at prompt width plus the final cursor |
| LineEditor.Editor.RedrawLineFromCursor | src/input.rs:209-233 | the column ends at prompt width plus the position it was given |
| LineEditor.Editor.InsertCharAtCursor | src/input.rs:103-114 | the new buffers and column are those of `Editing.InsertChar` on the old ones |
| LineEditor.Editor.DeleteCharAtCursor | src/input.rs:146-157 | the new buffers and column are those of `Editing.DeleteBackward` |
| LineEditor.Editor.DeleteCharForward | src/input.rs:159-169 | the new buffers and column are those of `Editing.DeleteForward` |
| LineEditor.Editor.MoveCursorLeft | src/input.rs:171-179 | the new buffers and column are those of `Editing.MoveLeft` |
| LineEditor.Editor.MoveCursorRight | src/input.rs:181-189 | the new buffers and column are those of `Editing.MoveRight` |
| LineEditor.Editor.MoveCursorToStart | src/input.rs:191-198 | the new buffers and column are those of `Editing.MoveHome` |
| LineEditor.Editor.MoveCursorToEnd | src/input.rs:200-207 | the new buffers and column are those of `Editing.MoveEnd` |
| LineEditor.Editor.HandleEnter | src/input.rs:63-74 | the exit flag and the new state are those of `Editing.PressEnter` |
| LineEditor.Editor.HandlePasteEvent | src/input.rs:235-263 | the loop over the pieces leaves exactly the state of `Editing.Paste` |
| LineEditor.Editor.InsertFirstPiece | src/input.rs:246-250 | the first piece leaves the state of `Editing.InsertPiece` |
| LineEditor.Editor.StartNextPiece | src/input.rs:251-260 | a later piece leaves the state of `Editing.NewLinePiece` |
| StdinHandler.KeyStep | src/stdin_handler.rs:37-89 | a key keeps the cursor within the line and only appends non-blank lines |
| StdinHandler.HandleKeyEvent | src/stdin_handler.rs:37-89 | the exit flag and new state are those of `StdinHandler.KeyStep` |
| StdinHandler.KeyExitIff | src/stdin_handler.rs:46-63 | a key ends the session exactly when it is Enter on a blank line or Ctrl+C, and then leaves the line and committed lines as they were |
| StdinHandler.CharKeys | src/stdin_handler.rs:59-64 | Ctrl+C changes nothing and exits; every other character, Ctrl chords included, is inserted |
| StdinHandler.OtherKeysIgnored | src/stdin_handler.rs:84-88 | keys no arm handles change nothing and do not exit |
| StdinHandler.OnlyEnterCommits | src/stdin_handler.rs:46-58 | only Enter changes the committed lines, and only by appending the non-blank line being edited |
| StdinHandler.KeyKeepsSync | src/stdin_handler.rs:43 | every key that does not exit keeps the column after the numbered prompt at the cursor |
| StdinHandler.EditExamples | src/stdin_handler.rs:285-346 | on `hello` at 2: insert X gives `heXllo`,3; Backspace gives `hllo`,1; Delete gives `helo`,2; Left, Right, Home, End give 1, 2, 0, 5 |
| StdinHandler.EnterExamples | src/stdin_handler.rs:372-392 | Enter on `test line` commits it and clears the line; Enter on the empty line exits |
| Input.KeyStep | src/input.rs:56-101 | a key code keeps the cursor within the line and only appends non-blank lines |
| Input.HandleKeyEvent | src/input.rs:56-101 | the exit flag and new state are those of `Input.KeyStep` |
| Input.EventStep | src/input.rs:22-33 | an event keeps the cursor within the line; one that exits leaves a blank line and the committed lines as they were |
| Input.Session | src/input.rs:21-35 | a session that ends, ends on a blank line with only non-blank lines appended |
| Input.ReadAllInput | src/input.rs:10-41 | the loop returns the fold `Input.Outcome` of the events: the committed lines joined by line feeds, or nothing while it waits |
| Input.Outcome | src/input.rs:10-41 | `read_all_input` returns only after it has read an Enter |
| Input.SessionEndsOnEnter | src/input.rs:21-35 | only an Enter key ends the loop |
| Input.KeyExitIff | src/input.rs:63-68 | a key ends the session exactly when it is Enter on a blank line |
| Input.CtrlCTypesC | src/input.rs:24-25 | Ctrl+C is not special: it types a `c` |
| Input.FixedPromptColumns | src/input.rs:122-138 | every key that does not exit keeps the column at 2 plus the cursor |
| Input.SameEditsAsStdinHandler | src/input.rs:56-101 | apart from Ctrl+C and the column, the two editors answer every key alike |
| Input.LaterEventsIgnored | src/input.rs:26 | events after the Enter that ends the session change nothing (the loop of `read_all_input`) |
| Input.OutcomeLines | src/input.rs:37-40 | the result joins only non-blank committed lines, and is empty exactly when nothing was committed |
| Keyboard.EventStep | src/main.rs:80-101 | an event keeps the cursor within the line; one that exits leaves the committed lines as they were |
| Keyboard.Session | src/main.rs:79-103 | a session that ends has only appended non-blank lines |
| Keyboard.ReadKeyboardInput | src/main.rs:68-109 | the loop returns the fold `Keyboard.KeyboardResult` of the events, the committed lines joined by line feeds |
| Keyboard.KeyboardResult | src/main.rs:68-109 | `read_keyboard_input` returns only after it has read Enter or Ctrl+C |
| Keyboard.SessionEndsOnExitKey | src/main.rs:79-103 | only Enter and Ctrl+C end the loop |
| Keyboard.CtrlCDropsLine | src/main.rs:83-90 | Ctrl+C ends the session in the state it found, so the line being edited is dropped |
| Keyboard.LaterEventsIgnored | src/main.rs:89 | events after the Enter or Ctrl+C that ends the loop change nothing (the separate loop of `read_keyboard_input`) |
| Keyboard.ResultLines | src/main.rs:105-108 | the result joins only non-blank committed lines, and is empty exactly when nothing was committed |
| Keyboard.EmptyEnterExample | src/main.rs:105-108 | Enter on the empty first line gives the empty text |
| Keyboard.TypeAtEnd | src/stdin_handler.rs:91-103 | a character typed at the end of the line is appended to it |
| Keyboard.Appended | src/stdin_handler.rs:91-103 | the state after typing at the end of the line keeps the cursor at the end and in step with the column |
| Keyboard.TypeText | src/stdin_handler.rs:91-135 | typing a text at the end of the line appends it, with the cursor and the column after it |
| Keyboard.TypeHello | src/main.rs:79-103 | typing `hello` into the first line gives `hello` with the cursor at 5, column 9 |
| Keyboard.LeftLeftX | src/main.rs:79-103 | Left, Left and X on `hello` give `helXlo` with the cursor at 4 |
| Keyboard.EnterTwice | src/main.rs:79-103 | Enter commits `helXlo`, and Enter on the empty line ends the session |
| Keyboard.TypingExample | src/main.rs:68-109 | typing hello, Left, Left, X, Enter, Enter gives `helXlo` |
| Keyboard.LinesOfThree | src/stdin_handler.rs:395-407 | `a\nb\nc` splits into `a`, `b` and `c` |
| Keyboard.PasteThreeLines | src/stdin_handler.rs:243-278 | pasting `a\nb\nc` into the empty first line commits `a` and `b` and leaves `c` being edited |
| Keyboard.PasteThenCtrlC | src/main.rs:83-98 | a paste followed by Ctrl+C ends with what the paste left, its last line uncommitted |
| Keyboard.PasteThenCtrlCExample | src/main.rs:68-109 | pasting `a\nb\nc` and pressing Ctrl+C gives `a\nb` |
| Keyboard.PasteIndentedExample | src/stdin_handler.rs:395-407 | a pasted `  indented` continues the empty line as `indented` |
| Keyboard.IndentedPieces | src/stdin_handler.rs:249-252 | `  indented` is one piece, which trims to `indented` |
| Cli.LastStyle | src/main.rs:22-38 | a style other than Double is selected by one of the arguments |
| Cli.NonStyleArgs | src/main.rs:22-38 | no style flag is left among the kept arguments |
| Cli.FromArgs | src/main.rs:22-38 | the loop returns the last style flag (Double without one) and the other arguments in order |
| Cli.DefaultIsDouble | src/main.rs:23 | without a style flag the style is Double |
| Cli.LastFlagWins | src/main.rs:27-35 | the last style flag decides the style, whatever comes before it |
| Cli.NonStyleArgsAppend | src/main.rs:32 | filtering distributes over concatenation, so order is kept |
| Cli.KeptIffNotFlag | src/main.rs:28-32 | an argument is kept exactly when it occurs and is not a style flag |
| Cli.FlagDoesNotShift | src/main.rs:182-184 | inserting a style flag anywhere leaves the filtered arguments as they were |
| Cli.NoFlagsKept | src/main.rs:32 | arguments without style flags are kept unchanged, the program name included |
| Cli.NonStyleArgsOne | src/main.rs:28-32 | one argument is kept or dropped on its own |
| Cli.SingleFileExample | src/main.rs:327-335 | `program --single file.txt` gives Single and `program file.txt` |
| Cli.RawOnlyExample | src/main.rs:337-340 | `program --raw` gives Raw and `program` |
| Cli.LastOfTwoExample | src/main.rs:342-348 | `program --double --single` gives Single |
| Cli.Dispatch | src/main.rs:184-211 | piped or keyboard input exactly for one argument; a file only for two, named by the second and not `-h`/`--help`; an error exactly for any other count |
| Cli.DispatchCases | src/main.rs:184-211 | one argument reads piped or keyboard input; two read the file unless the second is `-h`/`--help`; any other count is an error |
| Cli.FileWithFlags | src/main.rs:182-205 | the program name and a file name read that file whatever style flags surround them |
| Cli.FlagsAroundFile | src/main.rs:182 | the style flags around the program and file name are all dropped |
| Cli.AllFlagsRemoved | src/main.rs:28-31 | nothing is left of a list of style flags |
| Literal.Replace | src/main.rs:115 | when the replacement does not hold the pattern, no occurrence of it is left |
| Literal.ReplaceKeepsAbsent | src/main.rs:115-119 | `replace` brings in no character that neither the text nor the replacement holds |
| Literal.EscapeChain | src/main.rs:114-128 | the chain leaves no raw line feed, carriage return or tab, whatever the quote |
| Literal.FormatLiteral | src/main.rs:111-139 | Double and Single literals start and end with their quote and hold no raw line feed or carriage return; a Raw literal starts with `r` and ends with `#` |
| Literal.ReplaceAppend | src/main.rs:115 | `replace` distributes over concatenation |
| Literal.ReplaceOne | src/main.rs:115 | `replace` on one character replaces it or keeps it |
| Literal.ReplaceAbsent | src/main.rs:115 | `replace` leaves text without the pattern unchanged |
| Literal.EscapeChar | src/main.rs:114-119 | each character is written as at least one character |
| Literal.EscapeEach | src/main.rs:117-119 | the escaped body holds no raw line feed, carriage return or tab |
| Literal.EscapeChainAppend | src/main.rs:114-119 | the `replace` chain distributes over concatenation |
| Literal.EscapeChainChar | src/main.rs:114-119 | the chain writes each character as its own escape, because the backslash goes first |
| Literal.EscapeChainIsEach | src/main.rs:113-130 | the chain of `replace` calls equals escaping each character independently |
| Literal.UnescapeChar | src/main.rs:114-128 | one escaped character reads back as itself |
| Literal.UnescapeEach | src/main.rs:114-128 | the escaped body reads back as the original text |
| Literal.QuotedRoundTrip | src/main.rs:111-130 | the Double and Single literals read back as the input and hold no raw line feed or carriage return |
| Literal.EscapeInjective | src/main.rs:297-323 | different texts give different escaped bodies, so a backslash-n differs from a line feed |
| Literal.SingleKeepsDoubleQuotes | src/main.rs:122-130 | the Single style leaves `"` untouched and writes `'` as `\'` |
| Literal.EscapeEachAppend | src/main.rs:114-128 | escaping each character distributes over concatenation |
| Literal.EscapeCharExamples | src/main.rs:297-323 | the empty text and the one-character texts of the edge-case test escape as that test expects |
| Literal.EscapePlainExample | src/main.rs:301 | `simple` is left as it is |
| Literal.EscapeLeavesPlain | src/main.rs:114-128 | text without a backslash, the style's quote, a line feed, a carriage return or a tab is written unchanged |
| Literal.EscapeBackslashLettersExample | src/main.rs:307 | a literal backslash-n, -r, -t gets its backslash doubled |
| Literal.QuoteStyleExample | src/main.rs:352-379 | the Double style escapes `"` and not `'`; the Single style escapes `'` and not `"` |
| Literal.Repeat | src/main.rs:156 | `"#".repeat(n)` has length n and only that character |
| Literal.LeadingQuotesRun | src/main.rs:146-152 | the quotes at the start form a run that the next character does not extend |
| Literal.MaxQuoteRunIsLongest | src/main.rs:141-157 | no run of quotes is longer than the computed maximum, and one is that long |
| Literal.RawDelimiter | src/main.rs:141-157 | the delimiter is at least one `#`, only `#`s, and longer than every run of quotes |
| Literal.FindRawStringDelimiter | src/main.rs:141-157 | the loop returns one `#` more than the longest run of consecutive quotes |
| Literal.MaxQuoteRunAppend | src/main.rs:146-153 | text cut after a non-quote has as its longest run the longer of the two sides |
| Literal.LeadingQuotesAppend | src/main.rs:146-153 | a run at the start does not reach past a non-quote |
| Literal.NoQuotesDelimiterExample | src/main.rs:384-386 | `Hello world` gets `#` |
| Literal.NoQuotesNoRun | src/main.rs:146-153 | text without a quote has a longest run of zero |
| Literal.QuotedWordDelimiterExample | src/main.rs:389-391 | `Hello "world"` gets `##` |
| Literal.QuotedWordRun | src/main.rs:389-391 | the pieces of `Hello "world"` give a longest run of one |
| Literal.ThreeQuotesDelimiterExample | src/main.rs:394-396 | `Has """ three quotes` gets `####` |
| Literal.ThreeQuotesRun | src/main.rs:394-396 | the pieces of `Has """ three quotes` give a longest run of three |
| Literal.RawLiteral | src/main.rs:133-134 | the literal is the text plus twice the delimiter plus three characters long |
| Literal.RawKeepsContent | src/main.rs:131-135 | the Raw literal is `r`, at least one `#`, a quote, the unchanged text, a quote and the same `#`s |
| Literal.LeadingHashes | src/main.rs:134 | the `#`s at the start of a text, and the character after them is not one |
| Literal.FindCloser | src/main.rs:134 | the first place a quote and the delimiter's `#`s close the raw literal, or the end |
| Literal.ReadRawLiteral | src/main.rs:134 | a raw literal reads back up to the first quote that the delimiter's `#`s follow |
| Literal.RawDelimiterCounterexample | src/main.rs:141-157 | the text `"##` gets `##`, and its literal ends right after the opening quote, reading back empty with `"##` left over |
| Literal.MaxHashesAfterQuote | src/main.rs:141-157 | no quote in the text is followed by more `#`s than this count |
| Literal.SafeRawDelimiter | src/main.rs:141-157 | the corrected delimiter is only `#`s, never shorter than the delimiter as written, and longer than every run of `#`s after a quote |
| Literal.SafeKeepsWrittenDelimiter | src/main.rs:381-402 | for text without `#`, such as every text of the delimiter test, the corrected delimiter is the one written |
| Literal.SafeRawRoundTrip | src/main.rs:131-135 | with the corrected delimiter the Raw literal reads back as exactly the text, with nothing after it |
| Literal.NoCloserInContent | src/main.rs:131-135 | no quote of the text closes a literal with the corrected delimiter |
| Literal.LeadingHashesOf | src/main.rs:134 | a delimiter followed by a non-`#` has exactly its own length in leading `#`s |
| Literal.FindCloserFirst | src/main.rs:134 | the first closing place is found |

## Left out

- Terminal output is not modelled: printing, clearing, flushing, raw mode and
  the `u16` casts of `MoveToColumn`. Only the column each operation leaves
  the cursor at is tracked.
- Errors returned by the terminal calls are not modelled: every `?` on a
  crossterm or `stdout` call is assumed to succeed. As a consequence, the path
  where such an error skips `disable_raw_mode` is not modelled either.
- The blocking `event::read()` loop is modelled over a finite list of events.
  When the list runs out before an exit key, the result is `None`, meaning
  "still waiting". A failed read (`ReadFailed`) is skipped, as the code skips
  it.
- Key events carry only the CONTROL modifier. Other modifiers and key event
  kinds (press, repeat, release) are not distinguished, because the code
  dispatches on none of them.
- Editing.NewLinePiece: the model counts one terminal column per printed
  character. A tab or a lone carriage return in a pasted piece moves a real
  terminal's cursor differently, and that is not modelled. `Synced` after a
  paste of several lines, the ensures of `Editing.PasteRest` and
  `EditingFacts.PasteSyncIff` hold under this assumption.
- Terminal width and line wrapping are not modelled. A column is an unbounded
  number.
- UTF-8: the editor's lines hold only characters that UTF-8 encodes in one
  byte. The panics of `String::insert`/`remove` off a character boundary are
  outside the model.
- `src/file_input.rs` and `src/clipboard_handler.rs` are not part of this
  model: they hold filesystem and clipboard access only.
- `has_piped_input`, `read_piped_input`, `read_file_input`, `print_usage`,
  `process::exit` and the final `println!` of `main.rs` are not modelled. They
  are process, stdin and file plumbing; the piped/terminal question is a
  parameter of `Cli.Dispatch`.
- Literal.ReadRaw: it reads a raw literal by its quotes and hashes only. It
  does not reject a bare carriage return or a delimiter of more than 255
  `#`s, which Rust refuses, so `Literal.SafeRawRoundTrip` also covers texts
  with a lone carriage return.
- Literal.QuoteStyleExample: it is stated on the short text `a"b'` followed
  by a line feed, not on the longer text of the quote-styles test. The two
  cover the same cases.
- Literal.EscapeCharExamples: it states the one-character cases of the
  edge-case test on the `replace` chain itself. The longer texts (`simple`,
  the backslash letters) are stated on the per-character escaping that
  `Literal.EscapeChainIsEach` proves equal to it. The mixed text of the last
  edge case and of the `print_result` test are not evaluated.
- Literal.EscapeEach: the absence of raw line feeds, carriage returns and tabs
  is stated for quote characters other than those three, which covers both
  styles `print_result` uses.

## Findings

| source | as written | input that shows it | evidently intended | confidence | as-written member | corrected member |
|---|---|---|---|---|---|---|
| src/stdin_handler.rs:259-263 | after the first paste piece, `redraw_line_from_cursor` is given the old cursor, so it leaves the terminal cursor before the pasted text while the buffer cursor is after it (the same happens at src/input.rs:250) | pasting `ab` into the empty first line: buffer cursor 2, terminal column 4 instead of 6 | the terminal cursor ends after the pasted text, as `redraw_line_after_insert` leaves it after typing | not executed | EditingFacts.PasteDesyncExample | EditingFacts.PasteFixedKeepsSync |
| src/main.rs:141-157 | the delimiter is one `#` more than the longest run of consecutive quotes, but a raw literal is closed by a quote followed by as many `#`s as the delimiter | the text `"##` gets `##`; `r##""##"##` closes right after its opening quote and reads back as the empty text | one `#` more than the larger of the longest run of quotes and the longest run of `#`s after a quote, which keeps every delimiter the test expects | not executed | Literal.RawDelimiterCounterexample | Literal.SafeRawRoundTrip |

The sessions, the class and `Literal.FormatLiteral` keep the code as written,
so that what they state is what the program does.
- For the paste, `EditingFacts.PasteFixedKeepsSync` shows that the fix
  changes only the terminal column. Every fact about the buffers and the
  session results therefore holds for the corrected paste too.
- The paste row shows only when a `Paste` event reaches
  `handle_paste_event`. Neither `main.rs` nor `input.rs` asks the terminal
  for bracketed paste: they enable raw mode only (src/main.rs:74,
  src/input.rs:16). A paste from the terminal therefore arrives as `Char`
  key events, which `StdinHandler.KeyKeepsSync` keeps in step.
- For the raw delimiter, `Literal.SafeRawDelimiter` is the corrected
  definition, and `Literal.SafeRawRoundTrip` proves that the literal reads
  back as the text. `Literal.SafeKeepsWrittenDelimiter` shows that text
  without `#` keeps the delimiter as written, so the outputs the delimiter
  test asserts are unchanged.
