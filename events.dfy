/** The terminal events the editors receive: crossterm's `Event`, `KeyEvent`
    and `KeyCode`, reduced to what the editors look at. */
module Events {
  import opened Text

  datatype KeyCode =
    | Enter
    | Char(c: AsciiChar)
    | Backspace
    | Delete
    | Left
    | Right
    | Home
    | End
    | OtherKey  // Tab, Esc, Up, Down, function keys, ...: no arm handles them

  /** A key press. Of its modifiers only CONTROL is ever tested. */
  datatype KeyEvent = KeyEvent(code: KeyCode, control: bool)

  datatype Option<T> = None | Some(value: T)

  datatype Event =
    | Key(key: KeyEvent)
    | Pasted(text: Line)
    | OtherEvent  // resize, focus and mouse events
    | ReadFailed  // `event::read()` returned an error
}
