/** stdin_handler.rs: the editor behind `read_keyboard_input`, with a prompt
    numbered by line and Ctrl+C as a second way out. */
module StdinHandler {
  import opened Text
  import opened Prompt
  import opened Events
  import opened Editing
  import opened LineEditor

  /** What `handle_key_event` does with one key press, and whether it asks
      the session to end. */
  function KeyStep(s: EditorState, ev: KeyEvent): (r: Step)
    requires Valid(s)
    ensures Valid(r.state) && GrewByNonBlank(s.builder, r.state.builder)
  {
    match ev.code
    case Enter => PressEnter(Numbered, s)
    case Char(c) =>
      if c == 'c' && ev.control then Step(true, s) else Step(false, InsertChar(Numbered, s, c))
    case Backspace => Step(false, DeleteBackward(Numbered, s))
    case Delete => Step(false, DeleteForward(Numbered, s))
    case Left => Step(false, MoveLeft(s))
    case Right => Step(false, MoveRight(s))
    case Home => Step(false, MoveHome(Numbered, s))
    case End => Step(false, MoveEnd(Numbered, s))
    case OtherKey => Step(false, s)
  }

  /** `handle_key_event`: dispatches on the key code to the edits of the
      editor. */
  method HandleKeyEvent(e: Editor, ev: KeyEvent) returns (exit: bool)
    requires e.prompt == Numbered && e.Valid()
    modifies e
    ensures e.Valid()
    ensures exit == KeyStep(old(e.State()), ev).exit && e.State() == KeyStep(old(e.State()), ev).state
  {
    exit := false;
    match ev.code
    case Enter =>
      exit := e.HandleEnter();
    case Char(c) =>
      if c == 'c' && ev.control {
        return true;
      }
      e.InsertCharAtCursor(c);
    case Backspace =>
      e.DeleteCharAtCursor();
    case Delete =>
      e.DeleteCharForward();
    case Left =>
      e.MoveCursorLeft();
    case Right =>
      e.MoveCursorRight();
    case Home =>
      e.MoveCursorToStart();
    case End =>
      e.MoveCursorToEnd();
    case OtherKey =>
  }

  /** The session ends exactly on Enter on a blank line or on Ctrl+C, and
      neither commits the line being edited nor touches it. */
  lemma KeyExitIff(s: EditorState, ev: KeyEvent)
    requires Valid(s)
    ensures KeyStep(s, ev).exit <==>
      (ev.code == Enter && IsBlank(s.line)) || (ev.code == Char('c') && ev.control)
    ensures KeyStep(s, ev).exit ==>
      KeyStep(s, ev).state.line == s.line && KeyStep(s, ev).state.builder == s.builder
  {
  }

  /** Ctrl+C changes nothing at all, not even the screen; every other
      character, Ctrl chords included, is inserted at the cursor. */
  lemma CharKeys(s: EditorState, c: AsciiChar, control: bool)
    requires Valid(s)
    ensures c == 'c' && control ==> KeyStep(s, KeyEvent(Char(c), control)) == Step(true, s)
    ensures !(c == 'c' && control) ==>
      KeyStep(s, KeyEvent(Char(c), control)) == Step(false, InsertChar(Numbered, s, c))
  {
  }

  /** Keys that no arm handles change nothing and do not end the session. */
  lemma OtherKeysIgnored(s: EditorState, control: bool)
    requires Valid(s)
    ensures KeyStep(s, KeyEvent(OtherKey, control)) == Step(false, s)
  {
  }

  /** Only Enter commits a line, and the line it commits is the one being
      edited. */
  lemma OnlyEnterCommits(s: EditorState, ev: KeyEvent)
    requires Valid(s)
    ensures ev.code != Enter ==> KeyStep(s, ev).state.builder == s.builder
    ensures KeyStep(s, ev).state.builder != s.builder ==>
      KeyStep(s, ev).state.builder == s.builder + [s.line] && !IsBlank(s.line)
  {
  }

  /** A key that does not end the session leaves the terminal cursor after
      the numbered prompt at the buffer cursor, when it was there before. */
  lemma KeyKeepsSync(s: EditorState, ev: KeyEvent)
    requires Valid(s) && Synced(Numbered, s)
    ensures !KeyStep(s, ev).exit ==> Synced(Numbered, KeyStep(s, ev).state)
  {
    assert s.column >= Width(Numbered, |s.builder|);
  }

  /** The edits asserted by the unit tests of stdin_handler.rs, on "hello"
      with the cursor at 2. */
  lemma EditExamples(b: seq<Line>, col: nat)
    ensures var s := EditorState("hello", 2, b, col);
      && InsertChar(Numbered, s, 'X').line == "heXllo" && InsertChar(Numbered, s, 'X').cursor == 3
      && DeleteBackward(Numbered, s).line == "hllo" && DeleteBackward(Numbered, s).cursor == 1
      && DeleteForward(Numbered, s).line == "helo" && DeleteForward(Numbered, s).cursor == 2
      && MoveLeft(s).cursor == 1 && MoveRight(MoveLeft(s)).cursor == 2
      && MoveHome(Numbered, s).cursor == 0 && MoveEnd(Numbered, s).cursor == 5
  {
    var s := EditorState("hello", 2, b, col);
    assert InsertAt(s.line, 2, "X") == "heXllo";
    assert RemoveAt(s.line, 1) == "hllo";
    assert RemoveAt(s.line, 2) == "helo";
  }

  /** Enter on "test line" commits it and clears the line; Enter on the empty
      line ends the session. */
  lemma EnterExamples(col: nat)
    ensures var r := PressEnter(Numbered, EditorState("test line", 9, [], col));
      !r.exit && r.state.builder == ["test line"] && r.state.line == [] && r.state.cursor == 0
    ensures PressEnter(Numbered, EditorState([], 0, [], col)).exit
  {
    var l: Line := "test line";
    assert !IsWhitespace(l[0]);
  }
}
