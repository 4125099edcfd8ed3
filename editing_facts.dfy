/** Properties of the edits of module Editing: round trips, the cursor and
    screen invariants, and the paste policy. */
module EditingFacts {
  import opened Text
  import opened Prompt
  import opened Editing

  /** The last piece of a paste is the line left being edited. */
  lemma {:induction false} PasteRestLast(p: PromptStyle, s: EditorState, raws: seq<Line>)
    requires Valid(s) && raws != []
    ensures PasteRest(p, s, raws).line == TrimStart(raws[|raws| - 1])
    ensures PasteRest(p, s, raws).cursor == |TrimStart(raws[|raws| - 1])|
    decreases |raws|
  {
    if |raws| > 1 {
      PasteRestLast(p, PasteNext(p, s, raws[0]), raws[1..]);
      assert raws[1..][|raws| - 2] == raws[|raws| - 1];
    }
  }

  /** Typing a character and deleting it with Backspace restores the line
      and the cursor and, when it was in step, the terminal column. */
  lemma InsertThenBackspace(p: PromptStyle, s: EditorState, c: AsciiChar)
    requires Valid(s)
    ensures DeleteBackward(p, InsertChar(p, s, c)).(column := s.column) == s
    ensures Synced(p, s) ==> DeleteBackward(p, InsertChar(p, s, c)) == s
  {
    RemoveInserted(s.line, s.cursor, c);
  }

  /** Backspace is the same edit as Left followed by Delete. */
  lemma BackspaceIsLeftThenDelete(p: PromptStyle, s: EditorState)
    requires Valid(s) && s.cursor > 0
    ensures DeleteForward(p, MoveLeft(s)) == DeleteBackward(p, s)
  {
  }

  /** Insert, Backspace, Delete, Left, Right, Home and End all leave the
      terminal column at prompt width plus cursor when it was there before. */
  lemma EditsKeepSync(p: PromptStyle, s: EditorState, c: AsciiChar)
    requires Valid(s) && Synced(p, s)
    ensures Synced(p, InsertChar(p, s, c))
    ensures Synced(p, DeleteBackward(p, s)) && Synced(p, DeleteForward(p, s))
    ensures Synced(p, MoveLeft(s)) && Synced(p, MoveRight(s))
    ensures Synced(p, MoveHome(p, s)) && Synced(p, MoveEnd(p, s))
  {
    assert s.column >= Width(p, |s.builder|);
  }

  /** A paste of a single line leaves that line's trimmed text inserted at the
      cursor and commits nothing. */
  lemma PasteOneLine(p: PromptStyle, s: EditorState, text: Line)
    requires Valid(s) && |Lines(text)| == 1
    ensures Paste(p, s, text).line == InsertAt(s.line, s.cursor, TrimStart(Lines(text)[0]))
    ensures Paste(p, s, text).cursor == s.cursor + |TrimStart(Lines(text)[0])|
    ensures Paste(p, s, text).builder == s.builder
    ensures Paste(p, s, text).column == Width(p, |s.builder|) + s.cursor
  {
    PasteUnfold(p, s, text);
  }

  lemma PasteUnfold(p: PromptStyle, s: EditorState, text: Line)
    requires Valid(s) && Lines(text) != []
    ensures Paste(p, s, text) == PasteRest(p, PasteFirst(p, s, Lines(text)[0]), Lines(text)[1..])
  {
  }

  lemma PasteRestStep(p: PromptStyle, s: EditorState, raws: seq<Line>)
    requires Valid(s) && raws != []
    ensures PasteRest(p, s, raws) == PasteRest(p, PasteNext(p, s, raws[0]), raws[1..])
  {
  }

  /** The terminal column after a paste is in step with the cursor exactly
      when the paste has more or fewer than one line, or its one line is empty
      after trimming: a non-empty single-line paste leaves the column behind. */
  lemma PasteSyncIff(p: PromptStyle, s: EditorState, text: Line)
    requires Valid(s) && Synced(p, s)
    ensures Synced(p, Paste(p, s, text)) <==>
      (|Lines(text)| != 1 || TrimStart(Lines(text)[0]) == [])
  {
  }

  /** A concrete desync: pasting "ab" into the empty first line of
      stdin_handler.rs leaves the buffer cursor at 2 but the terminal cursor
      at column 4, right after the prompt " 1> ", instead of column 6. */
  lemma PasteDesyncExample()
    ensures Paste(Numbered, Start(Numbered), "ab").cursor == 2
    ensures Paste(Numbered, Start(Numbered), "ab").column == 4
    ensures !Synced(Numbered, Paste(Numbered, Start(Numbered), "ab"))
  {
    var ab: Line := "ab";
    assert IndexOf(ab, '\n') == 2;
    assert Lines(ab) == [ab];
    assert TrimStart(ab) == ab;
    PasteOneLine(Numbered, Start(Numbered), ab);
    assert PromptWidth(1) == 4;
  }

  /** With the fix every paste keeps the terminal in step, and the buffers
      come out exactly as the code as written leaves them. */
  lemma {:induction false} PasteFixedKeepsSync(p: PromptStyle, s: EditorState, text: Line)
    requires Valid(s) && Synced(p, s)
    ensures Synced(p, PasteFixed(p, s, text))
    ensures PasteFixed(p, s, text).(column := 0) == Paste(p, s, text).(column := 0)
  {
    var pieces := Lines(text);
    if pieces != [] {
      PasteRestIgnoresColumn(p, PasteFirstFixed(p, s, pieces[0]), PasteFirst(p, s, pieces[0]), pieces[1..]);
    }
  }

  /** Later pieces do not look at the column they start from. */
  lemma {:induction false} PasteRestIgnoresColumn(p: PromptStyle, s: EditorState, t: EditorState, raws: seq<Line>)
    requires Valid(s) && Valid(t) && s.(column := 0) == t.(column := 0)
    ensures PasteRest(p, s, raws).(column := 0) == PasteRest(p, t, raws).(column := 0)
    ensures raws != [] ==> PasteRest(p, s, raws) == PasteRest(p, t, raws)
    decreases |raws|
  {
    if raws != [] {
      assert PasteNext(p, s, raws[0]) == PasteNext(p, t, raws[0]);
    }
  }

  /** After a paste of several lines, the last (trimmed) piece is the line
      being edited, with the cursor at its end. */
  lemma {:induction false} PasteManyLines(p: PromptStyle, s: EditorState, text: Line)
    requires Valid(s) && |Lines(text)| >= 2
    ensures Paste(p, s, text).line == TrimStart(Lines(text)[|Lines(text)| - 1])
    ensures Paste(p, s, text).cursor == |Paste(p, s, text).line|
  {
    PasteUnfold(p, s, text);
    PasteAfterFirst(p, s, Lines(text));
  }

  lemma PasteAfterFirst(p: PromptStyle, s: EditorState, pieces: seq<Line>)
    requires Valid(s) && |pieces| >= 2
    ensures PasteRest(p, PasteFirst(p, s, pieces[0]), pieces[1..]).line == TrimStart(pieces[|pieces| - 1])
    ensures PasteRest(p, PasteFirst(p, s, pieces[0]), pieces[1..]).cursor == |TrimStart(pieces[|pieces| - 1])|
  {
    var rest := pieces[1..];
    assert rest[|rest| - 1] == pieces[|pieces| - 1];
    PasteRestLast(p, PasteFirst(p, s, pieces[0]), rest);
  }
}
