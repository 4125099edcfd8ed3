/** main.rs, `read_keyboard_input`: the interactive session of the binary,
    driving the editor of stdin_handler.rs over the events the terminal
    delivers, and the text it returns. */
module Keyboard {
  import opened Text
  import opened Prompt
  import opened Events
  import opened Editing
  import opened EditingFacts
  import opened LineEditor
  import StdinHandler

  /** One pass of the loop for the event read: a key goes to
      `handle_key_event`, a paste to `handle_paste_event`; a failed read and
      every other event are skipped. */
  function EventStep(s: EditorState, ev: Event): (r: Step)
    requires Valid(s)
    ensures Valid(r.state) && GrewByNonBlank(s.builder, r.state.builder)
    ensures r.exit ==> r.state.builder == s.builder
  {
    match ev
    case Key(k) => StdinHandler.KeyStep(s, k)
    case Pasted(text) => Step(false, Paste(Numbered, s, text))
    case OtherEvent => Step(false, s)
    case ReadFailed => Step(false, s)
  }

  /** The loop from state `s` over the events read: the state it breaks out
      in, or None while it still waits for more. */
  function Session(s: EditorState, events: seq<Event>): (r: Option<EditorState>)
    requires Valid(s)
    ensures r.Some? ==> Valid(r.value) && GrewByNonBlank(s.builder, r.value.builder)
    decreases |events|
  {
    if events == [] then None
    else
      var next := EventStep(s, events[0]);
      if next.exit then Some(next.state)
      else
        var r := Session(next.state, events[1..]);
        if r.Some? then GrewTransitive(s.builder, next.state.builder, r.value.builder); r else r
  }

  /** The events that can end the loop: Enter and Ctrl+C. */
  predicate ExitKey(ev: Event) {
    ev.Key? && (ev.key.code == Enter || (ev.key.code == Char('c') && ev.key.control))
  }

  /** Only Enter and Ctrl+C end the loop. */
  lemma {:induction false} SessionEndsOnExitKey(s: EditorState, events: seq<Event>)
    requires Valid(s)
    ensures Session(s, events).Some? ==> exists k :: 0 <= k < |events| && ExitKey(events[k])
    decreases |events|
  {
    if events != [] {
      var next := EventStep(s, events[0]);
      if !next.exit {
        SessionEndsOnExitKey(next.state, events[1..]);
        if Session(s, events).Some? {
          var k :| 0 <= k < |events[1..]| && ExitKey(events[1..][k]);
          assert events[k + 1] == events[1..][k];
        }
      } else if events[0].Key? {
        StdinHandler.KeyExitIff(s, events[0].key);
      }
    }
  }

  /** What `read_keyboard_input` returns for the events read: the committed
      lines joined by line feeds, once the loop has ended. */
  function KeyboardResult(events: seq<Event>): (r: Option<Line>)
    ensures r.Some? ==> exists k :: 0 <= k < |events| && ExitKey(events[k])
  {
    SessionEndsOnExitKey(Start(Numbered), events);
    var r := Session(Start(Numbered), events);
    if r.Some? then Some(Join(r.value.builder)) else None
  }

  /** `read_keyboard_input`, over the events `event::read()` would deliver:
      the prompt " 1> " is printed, then events are handled until one asks
      to exit. */
  method ReadKeyboardInput(events: seq<Event>) returns (result: Option<Line>)
    ensures result == KeyboardResult(events)
  {
    var e := new Editor(Numbered);
    var i := 0;
    while i < |events|
      invariant 0 <= i <= |events| && e.prompt == Numbered && e.Valid()
      invariant Session(e.State(), events[i..]) == Session(Start(Numbered), events)
    {
      assert events[i..][0] == events[i] && events[i..][1..] == events[i + 1..];
      match events[i] {
        case Key(k) =>
          var exit := StdinHandler.HandleKeyEvent(e, k);
          if exit {
            return Some(Join(e.builder));
          }
        case Pasted(text) =>
          e.HandlePasteEvent(text);
        case OtherEvent =>
        case ReadFailed =>
      }
      i := i + 1;
    }
    return None;
  }

  /** A session ends on its first Ctrl+C or Enter on a blank line, and what
      is being edited then is dropped: the result is the lines committed
      before. */
  lemma CtrlCDropsLine(s: EditorState, more: seq<Event>)
    requires Valid(s)
    ensures Session(s, [Key(KeyEvent(Char('c'), true))] + more) == Some(s)
  {
    assert ([Key(KeyEvent(Char('c'), true))] + more)[0] == Key(KeyEvent(Char('c'), true));
  }

  /** Once the loop has ended, later events change nothing. This loop of
      `read_keyboard_input` also stops on Ctrl+C, so it is a session of its
      own, apart from `Input.LaterEventsIgnored`. */
  lemma {:induction false} LaterEventsIgnored(s: EditorState, events: seq<Event>, more: seq<Event>)
    requires Valid(s) && Session(s, events).Some?
    ensures Session(s, events + more) == Session(s, events)
    decreases |events|
  {
    assert (events + more)[0] == events[0];
    assert (events + more)[1..] == events[1..] + more;
    var next := EventStep(s, events[0]);
    if !next.exit {
      LaterEventsIgnored(next.state, events[1..], more);
    }
  }

  /** The result holds only committed lines, none of them blank, and is
      empty exactly when nothing was committed. */
  lemma ResultLines(events: seq<Event>)
    requires Session(Start(Numbered), events).Some?
    ensures var st := Session(Start(Numbered), events).value;
      && CommittedNonBlank(st.builder)
      && KeyboardResult(events) == Some(Join(st.builder))
      && (Join(st.builder) == [] <==> st.builder == [])
  {
    var st := Session(Start(Numbered), events).value;
    if st.builder != [] {
      JoinNonEmpty(st.builder);
    }
  }

  /** Enter on the empty first line ends the session with the empty text. */
  lemma EmptyEnterExample(more: seq<Event>)
    ensures KeyboardResult([Key(KeyEvent(Enter, false))] + more) == Some([])
  {
    var events := [Key(KeyEvent(Enter, false))] + more;
    assert events[0] == Key(KeyEvent(Enter, false));
  }

  /** One event that does not end the loop hands the rest to the next
      state. */
  lemma SessionStep(s: EditorState, ev: Event, rest: seq<Event>)
    requires Valid(s) && !EventStep(s, ev).exit
    ensures Session(s, [ev] + rest) == Session(EventStep(s, ev).state, rest)
  {
    assert ([ev] + rest)[0] == ev && ([ev] + rest)[1..] == rest;
  }

  function Type(c: AsciiChar): Event {
    Key(KeyEvent(Char(c), false))
  }

  /** The state after typing `w` at the end of the line of `s`. */
  function Appended(s: EditorState, w: Line): (r: EditorState)
    requires Valid(s) && s.cursor == |s.line|
    ensures Valid(r) && Synced(Numbered, r) && r.cursor == |r.line| && r.builder == s.builder
  {
    EditorState(s.line + w, |s.line| + |w|, s.builder, Width(Numbered, |s.builder|) + |s.line| + |w|)
  }

  /** A character typed at the end of the line is appended to it. */
  lemma TypeAtEnd(s: EditorState, c: AsciiChar, rest: seq<Event>)
    requires Valid(s) && s.cursor == |s.line|
    ensures Session(s, [Type(c)] + rest) == Session(Appended(s, [c]), rest)
  {
    AppendChar(s, c);
    SessionStep(s, Type(c), rest);
  }

  lemma AppendChar(s: EditorState, c: AsciiChar)
    requires Valid(s) && s.cursor == |s.line|
    ensures EventStep(s, Type(c)) == Step(false, Appended(s, [c]))
  {
    StdinHandler.CharKeys(s, c, false);
    assert InsertAt(s.line, s.cursor, [c]) == s.line + [c];
  }

  /** The key presses that type `w`, one character at a time. */
  function Typed(w: Line): seq<Event>
    decreases |w|
  {
    if w == [] then [] else [Type(w[0])] + Typed(w[1..])
  }

  /** Typing a text at the end of the line appends it, and the terminal
      cursor follows. */
  lemma {:induction false} TypeText(s: EditorState, w: Line, rest: seq<Event>)
    requires Valid(s) && Synced(Numbered, s) && s.cursor == |s.line|
    ensures Session(s, Typed(w) + rest) == Session(Appended(s, w), rest)
    decreases |w|
  {
    if w == [] {
      TypedNothing(s, rest);
    } else {
      TypedCons(w, rest);
      TypeAtEnd(s, w[0], Typed(w[1..]) + rest);
      AppendedCons(s, w);
      TypeText(Appended(s, [w[0]]), w[1..], rest);
    }
  }

  lemma TypedNothing(s: EditorState, rest: seq<Event>)
    requires Valid(s) && Synced(Numbered, s) && s.cursor == |s.line|
    ensures Typed([]) + rest == rest && Appended(s, []) == s
  {
    assert s.line + [] == s.line;
  }

  lemma TypedCons(w: Line, rest: seq<Event>)
    requires w != []
    ensures Typed(w) + rest == [Type(w[0])] + (Typed(w[1..]) + rest)
  {
  }

  lemma AppendedCons(s: EditorState, w: Line)
    requires Valid(s) && s.cursor == |s.line| && w != []
    ensures Appended(Appended(s, [w[0]]), w[1..]) == Appended(s, w)
  {
    assert s.line + [w[0]] + w[1..] == s.line + w;
  }

  /** Typing "hello" into the empty first line. */
  lemma TypeHello(rest: seq<Event>)
    ensures Session(Start(Numbered), [Type('h'), Type('e'), Type('l'), Type('l'), Type('o')] + rest) ==
      Session(EditorState("hello", 5, [], 9), rest)
  {
    var hello: Line := "hello";
    assert Typed(hello) == [Type('h'), Type('e'), Type('l'), Type('l'), Type('o')];
    assert Width(Numbered, 0) == 4;
    assert [] + hello == hello;
    TypeText(Start(Numbered), hello, rest);
    assert Appended(Start(Numbered), hello) == EditorState("hello", 5, [], 9);
  }

  /** Left, Left and X on "hello" with the cursor at its end. */
  lemma LeftLeftX(rest: seq<Event>)
    ensures Session(EditorState("hello", 5, [], 9),
      [Key(KeyEvent(Left, false)), Key(KeyEvent(Left, false)), Type('X')] + rest) ==
      Session(EditorState("helXlo", 4, [], 8), rest)
  {
    var left := Key(KeyEvent(Left, false));
    assert [left, left, Type('X')] + rest == [left] + ([left] + ([Type('X')] + rest));
    SessionStep(EditorState("hello", 5, [], 9), left, [left] + ([Type('X')] + rest));
    SessionStep(EditorState("hello", 4, [], 8), left, [Type('X')] + rest);
    SessionStep(EditorState("hello", 3, [], 7), Type('X'), rest);
    assert Width(Numbered, 0) == 4;
    assert InsertAt("hello", 3, "X") == "helXlo";
  }

  /** Enter commits "helXlo", and Enter on the then empty line ends the
      session. */
  lemma EnterTwice(rest: seq<Event>)
    ensures Session(EditorState("helXlo", 4, [], 8),
      [Key(KeyEvent(Enter, false)), Key(KeyEvent(Enter, false))] + rest) ==
      Some(EditorState([], 0, ["helXlo"], 0))
  {
    var enter := Key(KeyEvent(Enter, false));
    var l: Line := "helXlo";
    assert !IsWhitespace(l[0]);
    assert [enter, enter] + rest == [enter] + ([enter] + rest);
    var w := Width(Numbered, 1);
    assert [] + [l] == [l];
    assert EventStep(EditorState(l, 4, [], 8), enter) == Step(false, EditorState([], 0, [l], w));
    SessionStep(EditorState(l, 4, [], 8), enter, [enter] + rest);
    assert ([enter] + rest)[0] == enter;
    assert EventStep(EditorState([], 0, [l], w), enter) == Step(true, EditorState([], 0, [l], 0));
  }

  /** Typing h, e, l, l, o, Left, Left, X, Enter and Enter on the blank
      line gives "helXlo". */
  lemma TypingExample()
    ensures KeyboardResult([Type('h'), Type('e'), Type('l'), Type('l'), Type('o'),
      Key(KeyEvent(Left, false)), Key(KeyEvent(Left, false)), Type('X'),
      Key(KeyEvent(Enter, false)), Key(KeyEvent(Enter, false))]) == Some("helXlo")
  {
    var left, enter := Key(KeyEvent(Left, false)), Key(KeyEvent(Enter, false));
    var events := [Type('h'), Type('e'), Type('l'), Type('l'), Type('o'), left, left, Type('X'), enter, enter];
    assert events == [Type('h'), Type('e'), Type('l'), Type('l'), Type('o')] + ([left, left, Type('X')] + [enter, enter]);
    TypeHello([left, left, Type('X')] + [enter, enter]);
    LeftLeftX([enter, enter]);
    assert [enter, enter] == [enter, enter] + [];
    EnterTwice([]);
    assert Join(["helXlo"]) == "helXlo";
  }

  /** "a\nb\nc" splits into "a", "b" and "c". */
  lemma LinesOfThree()
    ensures Lines("a\nb\nc") == ["a", "b", "c"]
  {
    var a, b, c: Line := "a", "b", "c";
    assert [a, b, c][1..] == [b, c] && [b, c][1..] == [c];
    assert Join([c]) == c;
    assert Join([b, c]) == b + "\n" + c;
    assert Join([a, b, c]) == a + "\n" + (b + "\n" + c) == "a\nb\nc";
    assert Plain(a) && Plain(b) && Plain(c);
    LinesOfJoin([a, b, c]);
  }

  /** Pasting "a\nb\nc" into the empty first line commits "a" and "b" and
      leaves "c" being edited. */
  lemma PasteThreeLines()
    ensures Paste(Numbered, Start(Numbered), "a\nb\nc").builder == ["a", "b"]
    ensures Paste(Numbered, Start(Numbered), "a\nb\nc").line == "c"
  {
    var a, b, c: Line := "a", "b", "c";
    LinesOfThree();
    PasteUnfold(Numbered, Start(Numbered), "a\nb\nc");
    PieceStates(a, b, c);
  }

  lemma PieceStates(a: Line, b: Line, c: Line)
    requires a == "a" && b == "b" && c == "c"
    ensures var s1 := PasteFirst(Numbered, Start(Numbered), a);
      PasteRest(Numbered, s1, [b, c]).builder == [a, b] && PasteRest(Numbered, s1, [b, c]).line == c
  {
    assert TrimStart(a) == a && TrimStart(b) == b && TrimStart(c) == c;
    assert !IsWhitespace(a[0]) && !IsWhitespace(b[0]);
    var s1 := PasteFirst(Numbered, Start(Numbered), a);
    assert s1.line == a && s1.builder == [];
    var s2 := PasteNext(Numbered, s1, b);
    assert s2.builder == [a];
    var s3 := PasteNext(Numbered, s2, c);
    assert s3.builder == [a, b];
    assert [b, c][1..] == [c];
    assert PasteRest(Numbered, s2, [c]) == s3;
  }

  /** A paste followed by Ctrl+C ends the session with the lines the paste
      committed; what it left being edited is dropped. */
  lemma PasteThenCtrlC(s: EditorState, text: Line, more: seq<Event>)
    requires Valid(s)
    ensures Session(s, [Pasted(text), Key(KeyEvent(Char('c'), true))] + more) == Some(Paste(Numbered, s, text))
  {
    var ctrlC := Key(KeyEvent(Char('c'), true));
    assert [Pasted(text), ctrlC] + more == [Pasted(text)] + ([ctrlC] + more);
    SessionStep(s, Pasted(text), [ctrlC] + more);
    CtrlCDropsLine(Paste(Numbered, s, text), more);
  }

  /** Pasting "a\nb\nc" and pressing Ctrl+C gives "a\nb": the pending "c"
      is dropped. */
  lemma PasteThenCtrlCExample(more: seq<Event>)
    ensures KeyboardResult([Pasted("a\nb\nc"), Key(KeyEvent(Char('c'), true))] + more) == Some("a\nb")
  {
    PasteThenCtrlC(Start(Numbered), "a\nb\nc", more);
    PasteThreeLines();
    assert Join(["a", "b"]) == "a\nb";
  }

  /** A pasted first piece loses its leading whitespace: "  indented"
      continues the empty line as "indented". */
  lemma PasteIndentedExample()
    ensures Paste(Numbered, Start(Numbered), "  indented").line == "indented"
  {
    IndentedPieces("  indented");
    PasteOneLine(Numbered, Start(Numbered), "  indented");
  }

  lemma IndentedPieces(t: Line)
    requires t == "  indented"
    ensures Lines(t) == [t] && TrimStart(t) == "indented"
  {
    assert Plain(t);
    assert Join([t]) == t;
    LinesOfJoin([t]);
    assert t == "  " + "indented";
    IndentedTrim("  ", "indented");
  }

  lemma IndentedTrim(ws: Line, word: Line)
    requires ws == "  " && word == "indented"
    ensures TrimStart(ws + word) == word
  {
    assert !IsWhitespace(word[0]) && IsWhitespace(' ');
    var once := " " + word;
    assert (ws + word)[0] == ' ' && (ws + word)[1..] == once;
    assert once[0] == ' ' && once[1..] == word;
    assert TrimStart(once) == TrimStart(word) == word;
  }
}
