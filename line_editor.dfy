/** The editor's mutable buffers, as stdin_handler.rs and input.rs thread them
    through their handlers by `&mut`: `current_line`, `cursor_pos` and
    `builder`, plus the terminal's cursor column, which only the screen holds
    and which is therefore ghost. Each method is proved against the edit of
    module Editing that specifies it. */
module LineEditor {
  import opened Text
  import opened Prompt
  import opened Editing
  import opened EditingFacts

  class Editor {
    /** Which of the two prompts this editor prints. */
    const prompt: PromptStyle
    var line: Line
    var cursor: nat
    var builder: seq<Line>
    ghost var column: nat

    ghost function State(): EditorState
      reads this
    {
      EditorState(line, cursor, builder, column)
    }

    predicate Valid()
      reads this
    {
      cursor <= |line|
    }

    /** The buffers a session starts with, once the first prompt is printed. */
    constructor (p: PromptStyle)
      ensures prompt == p && Valid() && State() == Start(p)
    {
      prompt := p;
      line := [];
      cursor := 0;
      builder := [];
      column := Width(p, 0);
    }

    /** `move_to_next_line`: column 0 of the next terminal row. */
    method MoveToNextLine()
      modifies this`column
      ensures column == 0
    {
      column := 0;
    }

    /** `print_prompt` / `print_prompt_with_line_number(builder.len() + 1)`,
        printed at column 0. */
    method PrintPrompt()
      requires column == 0
      modifies this`column
      ensures column == Width(prompt, |builder|)
    {
      column := column + Width(prompt, |builder|);
    }

    /** `redraw_line_after_insert`: repaints the line from `redrawFrom` and
        leaves the terminal cursor after the prompt at `finalCursor`. */
    method RedrawLineAfterInsert(redrawFrom: nat, finalCursor: nat)
      requires redrawFrom <= |line|
      modifies this`column
      ensures column == Width(prompt, |builder|) + finalCursor
    {
      column := Width(prompt, |builder|) + redrawFrom;
      column := column + |line[redrawFrom..]|;
      column := Width(prompt, |builder|) + finalCursor;
    }

    /** `redraw_line_from_cursor`: repaints the line from `from` and leaves
        the terminal cursor after the prompt at `from`. */
    method RedrawLineFromCursor(from: nat)
      requires from <= |line|
      modifies this`column
      ensures column == Width(prompt, |builder|) + from
    {
      column := Width(prompt, |builder|) + from;
      column := column + |line[from..]|;
      column := Width(prompt, |builder|) + from;
    }

    /** `insert_char_at_cursor`. */
    method InsertCharAtCursor(c: AsciiChar)
      requires Valid()
      modifies this
      ensures Valid() && State() == InsertChar(prompt, old(State()), c)
    {
      var at := cursor;
      line := InsertAt(line, at, [c]);
      cursor := cursor + 1;
      RedrawLineAfterInsert(at, cursor);
    }

    /** `delete_char_at_cursor` (Backspace). */
    method DeleteCharAtCursor()
      requires Valid()
      modifies this
      ensures Valid() && State() == DeleteBackward(prompt, old(State()))
    {
      if cursor > 0 && |line| > 0 {
        cursor := cursor - 1;
        line := RemoveAt(line, cursor);
        RedrawLineFromCursor(cursor);
      }
    }

    /** `delete_char_forward` (Delete). */
    method DeleteCharForward()
      requires Valid()
      modifies this
      ensures Valid() && State() == DeleteForward(prompt, old(State()))
    {
      if cursor < |line| {
        line := RemoveAt(line, cursor);
        RedrawLineFromCursor(cursor);
      }
    }

    /** `move_cursor_left`. */
    method MoveCursorLeft()
      requires Valid()
      modifies this
      ensures Valid() && State() == MoveLeft(old(State()))
    {
      if cursor > 0 {
        cursor := cursor - 1;
        column := ColumnLeftOf(column);
      }
    }

    /** `move_cursor_right`. */
    method MoveCursorRight()
      requires Valid()
      modifies this
      ensures Valid() && State() == MoveRight(old(State()))
    {
      if cursor < |line| {
        cursor := cursor + 1;
        column := column + 1;
      }
    }

    /** `move_cursor_to_start` (Home). */
    method MoveCursorToStart()
      requires Valid()
      modifies this
      ensures Valid() && State() == MoveHome(prompt, old(State()))
    {
      column := Width(prompt, |builder|);
      cursor := 0;
    }

    /** `move_cursor_to_end` (End). */
    method MoveCursorToEnd()
      requires Valid()
      modifies this
      ensures Valid() && State() == MoveEnd(prompt, old(State()))
    {
      column := Width(prompt, |builder|) + |line|;
      cursor := |line|;
    }

    /** The Enter arm of `handle_key_event`, in both files: `exit` is the
        value the handler returns. */
    method HandleEnter() returns (exit: bool)
      requires Valid()
      modifies this
      ensures Valid()
      ensures exit == PressEnter(prompt, old(State())).exit
      ensures State() == PressEnter(prompt, old(State())).state
    {
      MoveToNextLine();
      var blank := TrimmedEmpty(line);
      if blank {
        return true;
      }
      builder := builder + [line];
      line := [];
      cursor := 0;
      PrintPrompt();
      return false;
    }

    /** `handle_paste_event`, in both files: the pieces of `str::lines`, one
        at a time. */
    method HandlePasteEvent(text: Line)
      requires Valid()
      modifies this
      ensures Valid() && State() == Paste(prompt, old(State()), text)
    {
      var pieces := Lines(text);
      var i := 0;
      while i < |pieces|
        invariant 0 <= i <= |pieces| && Valid()
        invariant i == 0 ==> State() == old(State())
        invariant i > 0 ==> PasteRest(prompt, State(), pieces[i..]) == Paste(prompt, old(State()), text)
      {
        var trimmed := TrimStart(pieces[i]);
        ghost var before := State();
        if i == 0 {
          InsertFirstPiece(trimmed);
          PasteUnfold(prompt, before, text);
        } else {
          StartNextPiece(trimmed);
          PasteRestStep(prompt, before, pieces[i..]);
          assert pieces[i..][1..] == pieces[i + 1..];
        }
        i := i + 1;
      }
    }

    /** The first piece of a paste, already trimmed: inserted at the cursor,
        then redrawn from the old cursor. */
    method InsertFirstPiece(piece: Line)
      requires Valid()
      modifies this
      ensures Valid() && State() == InsertPiece(prompt, old(State()), piece)
    {
      line := InsertAt(line, cursor, piece);
      cursor := cursor + |piece|;
      RedrawLineFromCursor(cursor - |piece|);
    }

    /** A later piece of a paste, already trimmed: the current line is
        committed when `trim()` leaves something of it, and the piece is
        printed as a new line after a fresh prompt. */
    method StartNextPiece(piece: Line)
      modifies this
      ensures Valid() && State() == NewLinePiece(prompt, old(State()), piece)
    {
      MoveToNextLine();
      var blank := TrimmedEmpty(line);
      if !blank {
        builder := builder + [line];
      }
      line := piece;
      cursor := |piece|;
      PrintPrompt();
      column := column + |piece|;
    }
  }
}
