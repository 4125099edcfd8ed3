/** input.rs: the same editor behind `read_all_input`, with the fixed prompt
    "> " and only the key code dispatched, so Enter on a blank line is the
    only way out. */
module Input {
  import opened Text
  import opened Prompt
  import opened Events
  import opened Editing
  import opened LineEditor
  import StdinHandler

  /** What `handle_key_event` does with one key code, and whether it asks the
      session to end. */
  function KeyStep(s: EditorState, code: KeyCode): (r: Step)
    requires Valid(s)
    ensures Valid(r.state) && GrewByNonBlank(s.builder, r.state.builder)
  {
    match code
    case Enter => PressEnter(Fixed, s)
    case Char(c) => Step(false, InsertChar(Fixed, s, c))
    case Backspace => Step(false, DeleteBackward(Fixed, s))
    case Delete => Step(false, DeleteForward(Fixed, s))
    case Left => Step(false, MoveLeft(s))
    case Right => Step(false, MoveRight(s))
    case Home => Step(false, MoveHome(Fixed, s))
    case End => Step(false, MoveEnd(Fixed, s))
    case OtherKey => Step(false, s)
  }

  /** `handle_key_event`. */
  method HandleKeyEvent(e: Editor, code: KeyCode) returns (exit: bool)
    requires e.prompt == Fixed && e.Valid()
    modifies e
    ensures e.Valid()
    ensures exit == KeyStep(old(e.State()), code).exit && e.State() == KeyStep(old(e.State()), code).state
  {
    exit := false;
    match code
    case Enter =>
      exit := e.HandleEnter();
    case Char(c) =>
      e.InsertCharAtCursor(c);
    case Backspace =>
      e.DeleteCharAtCursor();
    case Delete =>
      e.DeleteCharForward();
    case Left =>
      e.MoveCursorLeft();
    case Right =>
      e.MoveCursorRight();
    case Home =>
      e.MoveCursorToStart();
    case End =>
      e.MoveCursorToEnd();
    case OtherKey =>
  }

  /** One pass of the loop of `read_all_input` for the event read: a key is
      handed to `handle_key_event`, a paste to `handle_paste_event`; failed
      reads and all other events are skipped. */
  function EventStep(s: EditorState, ev: Event): (r: Step)
    requires Valid(s)
    ensures Valid(r.state) && GrewByNonBlank(s.builder, r.state.builder)
    ensures r.exit ==> IsBlank(r.state.line) && r.state.builder == s.builder
  {
    match ev
    case Key(k) => KeyStep(s, k.code)
    case Pasted(text) => Step(false, Paste(Fixed, s, text))
    case OtherEvent => Step(false, s)
    case ReadFailed => Step(false, s)
  }

  /** The loop of `read_all_input` from state `s` over the events read: the
      state it exits in, or None while it still waits for more. */
  function Session(s: EditorState, events: seq<Event>): (r: Option<EditorState>)
    requires Valid(s)
    ensures r.Some? ==> Valid(r.value) && GrewByNonBlank(s.builder, r.value.builder)
    ensures r.Some? ==> IsBlank(r.value.line)
    decreases |events|
  {
    if events == [] then None
    else
      var next := EventStep(s, events[0]);
      if next.exit then Some(next.state)
      else
        var r := Session(next.state, events[1..]);
        if r.Some? then GrewTransitive(s.builder, next.state.builder, r.value.builder); r else r
  }

  /** What `read_all_input` returns for the events read: the committed lines
      joined by line feeds, once the session has ended. */
  function Outcome(events: seq<Event>): (r: Option<Line>)
    ensures r.Some? ==> exists k :: 0 <= k < |events| && events[k].Key? && events[k].key.code == Enter
  {
    SessionEndsOnEnter(Start(Fixed), events);
    var r := Session(Start(Fixed), events);
    if r.Some? then Some(Join(r.value.builder)) else None
  }

  /** `read_all_input`, over the events `event::read()` would deliver. */
  method ReadAllInput(events: seq<Event>) returns (result: Option<Line>)
    ensures result == Outcome(events)
  {
    var e := new Editor(Fixed);
    var i := 0;
    while i < |events|
      invariant 0 <= i <= |events| && e.prompt == Fixed && e.Valid()
      invariant Session(e.State(), events[i..]) == Session(Start(Fixed), events)
    {
      ghost var before := e.State();
      assert events[i..][0] == events[i] && events[i..][1..] == events[i + 1..];
      match events[i] {
        case Key(k) =>
          var exit := HandleKeyEvent(e, k.code);
          if exit {
            return Some(Join(e.builder));
          }
        case Pasted(text) =>
          e.HandlePasteEvent(text);
        case OtherEvent =>
        case ReadFailed =>
      }
      i := i + 1;
    }
    return None;
  }

  /** Enter on a blank line is the only way out. */
  lemma KeyExitIff(s: EditorState, code: KeyCode)
    requires Valid(s)
    ensures KeyStep(s, code).exit <==> code == Enter && IsBlank(s.line)
  {
  }

  /** Only the key code is dispatched, so Ctrl+C types a 'c'. */
  lemma CtrlCTypesC(s: EditorState)
    requires Valid(s)
    ensures KeyStep(s, Char('c')) == Step(false, InsertChar(Fixed, s, 'c'))
  {
  }

  /** Every column is counted from the two columns of "> ": a key that does
      not end the session leaves the terminal cursor at 2 + cursor. */
  lemma FixedPromptColumns(s: EditorState, code: KeyCode)
    requires Valid(s) && s.column == 2 + s.cursor
    ensures !KeyStep(s, code).exit ==> KeyStep(s, code).state.column == 2 + KeyStep(s, code).state.cursor
  {
  }

  /** Apart from Ctrl+C and the terminal column, the two editors answer
      every key alike. */
  lemma SameEditsAsStdinHandler(s: EditorState, ev: KeyEvent)
    requires Valid(s) && !(ev.code == Char('c') && ev.control)
    ensures KeyStep(s, ev.code).exit == StdinHandler.KeyStep(s, ev).exit
    ensures KeyStep(s, ev.code).state.(column := 0) == StdinHandler.KeyStep(s, ev).state.(column := 0)
  {
  }

  /** Once the session has ended, later events change nothing. The loop of
      `read_all_input` returns on Enter; `Keyboard.LaterEventsIgnored` states
      the same of the separate loop in `read_keyboard_input`. */
  lemma {:induction false} LaterEventsIgnored(s: EditorState, events: seq<Event>, more: seq<Event>)
    requires Valid(s) && Session(s, events).Some?
    ensures Session(s, events + more) == Session(s, events)
    decreases |events|
  {
    assert (events + more)[0] == events[0];
    assert (events + more)[1..] == events[1..] + more;
    var next := EventStep(s, events[0]);
    if !next.exit {
      LaterEventsIgnored(next.state, events[1..], more);
    }
  }

  /** The result holds only the committed lines, none of them blank, and is
      empty exactly when nothing was committed. */
  lemma OutcomeLines(events: seq<Event>)
    requires Session(Start(Fixed), events).Some?
    ensures var st := Session(Start(Fixed), events).value;
      && CommittedNonBlank(st.builder)
      && Outcome(events) == Some(Join(st.builder))
      && (Join(st.builder) == [] <==> st.builder == [])
  {
    var st := Session(Start(Fixed), events).value;
    if st.builder != [] {
      var last := st.builder[|st.builder| - 1];
      assert !IsBlank(last);
      JoinNonEmpty(st.builder);
    }
  }

  /** Only Enter ends the loop: a session that returns has read an Enter. */
  lemma {:induction false} SessionEndsOnEnter(s: EditorState, events: seq<Event>)
    requires Valid(s)
    ensures Session(s, events).Some? ==>
      exists k :: 0 <= k < |events| && events[k].Key? && events[k].key.code == Enter
    decreases |events|
  {
    if events != [] {
      var next := EventStep(s, events[0]);
      if !next.exit {
        SessionEndsOnEnter(next.state, events[1..]);
        if Session(s, events).Some? {
          var k :| 0 <= k < |events[1..]| && events[1..][k].Key? && events[1..][k].key.code == Enter;
          assert events[k + 1] == events[1..][k];
        }
      } else if events[0].Key? {
        KeyExitIff(s, events[0].key.code);
      }
    }
  }
}
