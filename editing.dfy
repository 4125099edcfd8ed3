/** What every edit does to the editor's buffers and to the terminal's cursor
    column. stdin_handler.rs and input.rs implement the same edits; they differ
    only in the prompt (`PromptStyle`) and in how keys are dispatched, so the
    edits are stated once here, for both prompts, and each of those files'
    modules dispatches to them. */
module Editing {
  import opened Text
  import opened Prompt

  /** The editor between two events: the line being edited (`current_line`),
      the cursor's byte offset in it (`cursor_pos`), the committed lines
      (`builder`) and the column at which the terminal shows its cursor. */
  datatype EditorState = EditorState(line: Line, cursor: nat, builder: seq<Line>, column: nat)

  /** The buffer invariant: the cursor lies within the line. */
  predicate Valid(s: EditorState) {
    s.cursor <= |s.line|
  }

  /** The screen invariant: the terminal cursor stands after the prompt, at the
      buffer cursor. */
  predicate Synced(p: PromptStyle, s: EditorState) {
    s.column == Width(p, |s.builder|) + s.cursor
  }

  /** Every committed line holds something other than whitespace. */
  predicate CommittedNonBlank(lines: seq<Line>) {
    forall k :: 0 <= k < |lines| ==> !IsBlank(lines[k])
  }

  /** Only lines were added at the end, and each of them is non-blank. */
  predicate GrewByNonBlank(before: seq<Line>, after: seq<Line>) {
    before <= after && forall k :: |before| <= k < |after| ==> !IsBlank(after[k])
  }

  lemma GrewTransitive(a: seq<Line>, b: seq<Line>, c: seq<Line>)
    requires GrewByNonBlank(a, b) && GrewByNonBlank(b, c)
    ensures GrewByNonBlank(a, c)
  {
    forall k | |a| <= k < |c|
      ensures !IsBlank(c[k])
    {
      if k < |b| {
        assert c[k] == b[k];
      }
    }
  }

  /** The state after the first prompt is printed: nothing typed, nothing
      committed. */
  function Start(p: PromptStyle): (s: EditorState)
    ensures Valid(s) && Synced(p, s) && s.line == [] && s.builder == []
  {
    EditorState([], 0, [], Width(p, 0))
  }

  /** The outcome of one key: whether it ends the session, and the new state. */
  datatype Step = Step(exit: bool, state: EditorState)

  /** The column after crossterm's `MoveLeft(1)`, which stops at column 0. */
  function ColumnLeftOf(col: nat): (r: nat)
    ensures r <= col <= r + 1
    ensures r == col <==> col == 0
  {
    if col > 0 then col - 1 else 0
  }

  /** `insert_char_at_cursor` followed by `redraw_line_after_insert`. */
  function InsertChar(p: PromptStyle, s: EditorState, c: AsciiChar): (r: EditorState)
    requires Valid(s)
    ensures Valid(r) && Synced(p, r) && r.builder == s.builder
    ensures r.cursor == s.cursor + 1 && |r.line| == |s.line| + 1
    ensures r.line[..s.cursor] == s.line[..s.cursor] && r.line[s.cursor] == c
    ensures r.line[r.cursor..] == s.line[s.cursor..]
  {
    var at := s.cursor;
    s.(line := InsertAt(s.line, at, [c]), cursor := at + 1,
       column := Width(p, |s.builder|) + at + 1)
  }

  /** `delete_char_at_cursor` (Backspace) and its `redraw_line_from_cursor`. */
  function DeleteBackward(p: PromptStyle, s: EditorState): (r: EditorState)
    requires Valid(s)
    ensures Valid(r) && r.builder == s.builder
    ensures s.cursor == 0 ==> r == s
    ensures s.cursor > 0 ==>
      && r.cursor == s.cursor - 1 && Synced(p, r)
      && r.line[..r.cursor] == s.line[..r.cursor] && r.line[r.cursor..] == s.line[s.cursor..]
  {
    if s.cursor > 0 && |s.line| > 0 then
      var at := s.cursor - 1;
      s.(line := RemoveAt(s.line, at), cursor := at, column := Width(p, |s.builder|) + at)
    else
      s
  }

  /** `delete_char_forward` (Delete) and its `redraw_line_from_cursor`. */
  function DeleteForward(p: PromptStyle, s: EditorState): (r: EditorState)
    requires Valid(s)
    ensures Valid(r) && r.builder == s.builder && r.cursor == s.cursor
    ensures s.cursor == |s.line| ==> r == s
    ensures s.cursor < |s.line| ==>
      && Synced(p, r)
      && r.line[..r.cursor] == s.line[..s.cursor] && r.line[r.cursor..] == s.line[s.cursor + 1..]
  {
    if s.cursor < |s.line| then
      s.(line := RemoveAt(s.line, s.cursor), column := Width(p, |s.builder|) + s.cursor)
    else
      s
  }

  /** `move_cursor_left`: one column left with `MoveLeft(1)`, unless at 0. */
  function MoveLeft(s: EditorState): (r: EditorState)
    requires Valid(s)
    ensures Valid(r) && r.line == s.line && r.builder == s.builder
    ensures r.cursor == if s.cursor == 0 then 0 else s.cursor - 1
  {
    if s.cursor > 0 then s.(cursor := s.cursor - 1, column := ColumnLeftOf(s.column)) else s
  }

  /** `move_cursor_right`: one column right with `MoveRight(1)`, unless at
      the end of the line. */
  function MoveRight(s: EditorState): (r: EditorState)
    requires Valid(s)
    ensures Valid(r) && r.line == s.line && r.builder == s.builder
    ensures r.cursor == if s.cursor == |s.line| then s.cursor else s.cursor + 1
  {
    if s.cursor < |s.line| then s.(cursor := s.cursor + 1, column := s.column + 1) else s
  }

  /** `move_cursor_to_start` (Home). */
  function MoveHome(p: PromptStyle, s: EditorState): (r: EditorState)
    requires Valid(s)
    ensures Valid(r) && Synced(p, r) && r.line == s.line && r.builder == s.builder
    ensures r.cursor == 0
  {
    s.(cursor := 0, column := Width(p, |s.builder|))
  }

  /** `move_cursor_to_end` (End). */
  function MoveEnd(p: PromptStyle, s: EditorState): (r: EditorState)
    requires Valid(s)
    ensures Valid(r) && Synced(p, r) && r.line == s.line && r.builder == s.builder
    ensures r.cursor == |r.line|
  {
    s.(cursor := |s.line|, column := Width(p, |s.builder|) + |s.line|)
  }

  /** The Enter arm of `handle_key_event`: a blank line ends the session and
      commits nothing; any other line is committed, the line is cleared and
      the next prompt is printed. */
  function PressEnter(p: PromptStyle, s: EditorState): (r: Step)
    requires Valid(s)
    ensures Valid(r.state)
    ensures r.exit <==> IsBlank(s.line)
    ensures r.exit ==> r.state.line == s.line && r.state.builder == s.builder
    ensures !r.exit ==>
      && r.state.builder == s.builder + [s.line]
      && r.state.line == [] && r.state.cursor == 0 && Synced(p, r.state)
  {
    if IsBlank(s.line) then
      Step(true, s.(column := 0))
    else
      Step(false, EditorState([], 0, s.builder + [s.line], Width(p, |s.builder| + 1)))
  }

  /** The first piece of a paste, as written, once trimmed: inserted at the
      cursor, and the cursor moves past it, but `redraw_line_from_cursor` is
      handed the old cursor, so the terminal column is left there. */
  function InsertPiece(p: PromptStyle, s: EditorState, piece: Line): (r: EditorState)
    requires Valid(s)
    ensures Valid(r) && r.builder == s.builder
    ensures r.line == InsertAt(s.line, s.cursor, piece)
    ensures r.cursor == s.cursor + |piece|
    ensures r.column == Width(p, |s.builder|) + s.cursor
  {
    s.(line := InsertAt(s.line, s.cursor, piece), cursor := s.cursor + |piece|,
       column := Width(p, |s.builder|) + s.cursor)
  }

  /** The first piece of a paste: it loses its leading whitespace and is
      inserted at the cursor. */
  function PasteFirst(p: PromptStyle, s: EditorState, raw: Line): (r: EditorState)
    requires Valid(s)
    ensures Valid(r) && r.builder == s.builder
    ensures r.line == InsertAt(s.line, s.cursor, TrimStart(raw))
    ensures r.cursor == s.cursor + |TrimStart(raw)|
  {
    InsertPiece(p, s, TrimStart(raw))
  }

  /** A later piece of a paste, once trimmed: the current line is committed
      unless it is blank, then the piece becomes the line, with the cursor at
      its end, printed after a fresh prompt. */
  function NewLinePiece(p: PromptStyle, s: EditorState, piece: Line): (r: EditorState)
    ensures Valid(r) && Synced(p, r)
    ensures r.line == piece && r.cursor == |r.line|
    ensures r.builder == if IsBlank(s.line) then s.builder else s.builder + [s.line]
    ensures GrewByNonBlank(s.builder, r.builder)
  {
    var builder := if IsBlank(s.line) then s.builder else s.builder + [s.line];
    EditorState(piece, |piece|, builder, Width(p, |builder|) + |piece|)
  }

  /** A later piece of a paste: it loses its leading whitespace and starts a
      new line. */
  function PasteNext(p: PromptStyle, s: EditorState, raw: Line): (r: EditorState)
    ensures Valid(r) && Synced(p, r) && GrewByNonBlank(s.builder, r.builder)
  {
    NewLinePiece(p, s, TrimStart(raw))
  }

  /** The pieces after the first, in order. */
  function PasteRest(p: PromptStyle, s: EditorState, raws: seq<Line>): (r: EditorState)
    requires Valid(s)
    ensures Valid(r) && GrewByNonBlank(s.builder, r.builder)
    ensures raws == [] ==> r == s
    ensures raws != [] ==> Synced(p, r) && r.cursor == |r.line|
    decreases |raws|
  {
    if raws == [] then s
    else
      var n := PasteNext(p, s, raws[0]);
      var r := PasteRest(p, n, raws[1..]);
      GrewTransitive(s.builder, n.builder, r.builder);
      r
  }

  /** `handle_paste_event`: the text is split as by `str::lines`, each piece
      loses its leading whitespace, the first continues the current line at
      the cursor and every later one starts a new line. A paste never ends the
      session. */
  function Paste(p: PromptStyle, s: EditorState, text: Line): (r: EditorState)
    requires Valid(s)
    ensures Valid(r) && GrewByNonBlank(s.builder, r.builder)
  {
    var pieces := Lines(text);
    if pieces == [] then s else PasteRest(p, PasteFirst(p, s, pieces[0]), pieces[1..])
  }

  /** The first piece of a paste as evidently intended: the text is redrawn
      from the old cursor and the terminal cursor ends after the pasted text,
      as `redraw_line_after_insert` would leave it. */
  function PasteFirstFixed(p: PromptStyle, s: EditorState, raw: Line): (r: EditorState)
    requires Valid(s)
    ensures Valid(r) && Synced(p, r)
    ensures r == PasteFirst(p, s, raw).(column := r.column)
  {
    var piece := TrimStart(raw);
    s.(line := InsertAt(s.line, s.cursor, piece), cursor := s.cursor + |piece|,
       column := Width(p, |s.builder|) + s.cursor + |piece|)
  }

  /** `handle_paste_event` with the first piece redrawn as intended. */
  function PasteFixed(p: PromptStyle, s: EditorState, text: Line): (r: EditorState)
    requires Valid(s)
    ensures Valid(r) && GrewByNonBlank(s.builder, r.builder)
  {
    var pieces := Lines(text);
    if pieces == [] then s else PasteRest(p, PasteFirstFixed(p, s, pieces[0]), pieces[1..])
  }
}
