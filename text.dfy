/** Text helpers shared by both line editors: single-byte characters, Rust's
    notion of whitespace, trimming, `str::lines` and `join("\n")`. */
module Text {

  /** A character that UTF-8 encodes in a single byte. The editor's lines hold
      only these, so a character index here is the byte offset that Rust's
      `String::insert`, `String::remove` and `len` use. */
  type AsciiChar = c: char | c as int < 0x80

  type Line = seq<AsciiChar>

  /** Rust's `char::is_whitespace`: the Unicode White_Space property. */
  predicate IsWhitespace(c: char) {
    var n := c as int;
    (0x09 <= n <= 0x0D) || n == 0x20 || n == 0x85 || n == 0xA0 || n == 0x1680
    || (0x2000 <= n <= 0x200A) || n == 0x2028 || n == 0x2029 || n == 0x202F
    || n == 0x205F || n == 0x3000
  }

  predicate AllWhitespace(s: Line) {
    forall i :: 0 <= i < |s| ==> IsWhitespace(s[i])
  }

  /** `str::trim_start`. */
  function TrimStart(s: Line): (r: Line)
    ensures |r| <= |s|
    ensures r == [] || !IsWhitespace(r[0])
  {
    if s == [] || !IsWhitespace(s[0]) then s else TrimStart(s[1..])
  }

  /** `trim_start` drops the leading whitespace and nothing else: what is
      left is a suffix that is empty or starts with other than whitespace. */
  lemma {:induction false} TrimStartDropsLeadingWhitespace(s: Line)
    ensures |TrimStart(s)| <= |s| && TrimStart(s) == s[|s| - |TrimStart(s)|..]
    ensures AllWhitespace(s[..|s| - |TrimStart(s)|])
    ensures TrimStart(s) == [] || !IsWhitespace(TrimStart(s)[0])
    decreases |s|
  {
    if s != [] && IsWhitespace(s[0]) {
      var r := TrimStart(s[1..]);
      TrimStartDropsLeadingWhitespace(s[1..]);
      assert s[..|s| - |r|] == [s[0]] + s[1..][..|s[1..]| - |r|];
    }
  }

  /** `str::trim_end`. */
  function TrimEnd(s: Line): (r: Line)
    ensures |r| <= |s|
    ensures r == [] || !IsWhitespace(r[|r| - 1])
  {
    if s == [] || !IsWhitespace(s[|s| - 1]) then s else TrimEnd(s[..|s| - 1])
  }

  /** `trim_end` drops the trailing whitespace and nothing else: what is
      left is a prefix that is empty or ends in other than whitespace. */
  lemma {:induction false} TrimEndDropsTrailingWhitespace(s: Line)
    ensures |TrimEnd(s)| <= |s| && TrimEnd(s) == s[..|TrimEnd(s)|]
    ensures AllWhitespace(s[|TrimEnd(s)|..])
    ensures TrimEnd(s) == [] || !IsWhitespace(TrimEnd(s)[|TrimEnd(s)| - 1])
    decreases |s|
  {
    if s != [] && IsWhitespace(s[|s| - 1]) {
      var r := TrimEnd(s[..|s| - 1]);
      TrimEndDropsTrailingWhitespace(s[..|s| - 1]);
      assert s[|r|..] == s[..|s| - 1][|r|..] + [s[|s| - 1]];
    }
  }

  /** `str::trim`. */
  function Trim(s: Line): (r: Line)
    ensures |r| <= |s|
    ensures r == [] || (!IsWhitespace(r[0]) && !IsWhitespace(r[|r| - 1]))
  {
    TrimEndDropsTrailingWhitespace(TrimStart(s));
    TrimEnd(TrimStart(s))
  }

  /** A blank line: nothing in it but whitespace. */
  predicate IsBlank(s: Line) {
    AllWhitespace(s)
  }

  /** `line.trim().is_empty()`, the test both editors use, holds exactly of
      the blank lines. */
  lemma TrimEmptyIffBlank(s: Line)
    ensures Trim(s) == [] <==> IsBlank(s)
  {
    var t := TrimStart(s);
    TrimStartDropsLeadingWhitespace(s);
    TrimEndDropsTrailingWhitespace(t);
    assert s == s[..|s| - |t|] + t;
    if AllWhitespace(s) {
      assert AllWhitespace(t);
    }
    if Trim(s) == [] {
      var e := TrimEnd(t);
      assert e == [];
      assert t == t[|e|..];
      assert t == [];
    }
  }

  /** The test `line.trim().is_empty()` as the editors write it. */
  function TrimmedEmpty(s: Line): (b: bool)
    ensures b <==> IsBlank(s)
  {
    TrimEmptyIffBlank(s);
    Trim(s) == []
  }

  /** Position of the first `c` in `s`, or `|s|` when there is none. */
  function IndexOf(s: Line, c: AsciiChar): (i: nat)
    ensures i <= |s| && c !in s[..i]
    ensures i < |s| ==> s[i] == c
  {
    if s == [] then 0
    else if s[0] == c then 0
    else
      var i := 1 + IndexOf(s[1..], c);
      assert s[..i] == [s[0]] + s[1..][..i - 1];
      i
  }

  /** Removes one carriage return ending a line that a line feed ended. */
  function StripCr(s: Line): Line {
    if s != [] && s[|s| - 1] == '\r' then s[..|s| - 1] else s
  }

  /** `str::lines`: split at "\n" or "\r\n"; the terminators are dropped, a
      final terminator is optional, and the empty text has no lines. A lone
      "\r" that no "\n" follows is kept. */
  function Lines(s: Line): (r: seq<Line>)
    ensures forall k :: 0 <= k < |r| ==> '\n' !in r[k]
    ensures s == [] <==> r == []
    decreases |s|
  {
    if s == [] then []
    else
      var i := IndexOf(s, '\n');
      if i == |s| then [s]
      else [StripCr(s[..i])] + Lines(s[i + 1..])
  }

  /** `Vec<String>::join("\n")`. */
  function Join(ls: seq<Line>): (r: Line)
    ensures ls != [] ==> |ls[0]| <= |r| && r[..|ls[0]|] == ls[0]
  {
    if ls == [] then []
    else if |ls| == 1 then ls[0]
    else ls[0] + "\n" + Join(ls[1..])
  }

  /** A line that can be committed and still read back as itself. */
  predicate Plain(l: Line) {
    '\n' !in l && (l == [] || l[|l| - 1] != '\r')
  }

  /** Splitting joined lines gives the same lines back, when no line holds a
      line break, none ends in a carriage return and the last is not empty. */
  lemma {:induction false} LinesOfJoin(ls: seq<Line>)
    requires forall k :: 0 <= k < |ls| ==> Plain(ls[k])
    requires ls != [] ==> ls[|ls| - 1] != []
    ensures Lines(Join(ls)) == ls
    decreases |ls|
  {
    if |ls| == 1 {
      assert IndexOf(ls[0], '\n') == |ls[0]|;
    } else if |ls| > 1 {
      var s := Join(ls);
      var a := ls[0];
      var rest := Join(ls[1..]);
      assert s == a + "\n" + rest;
      IndexOfPrefix(a, rest);
      assert s[..|a|] == a;
      assert s[|a| + 1..] == rest;
      LinesOfJoin(ls[1..]);
      assert rest != [] by { JoinNonEmpty(ls[1..]); }
    }
  }

  lemma IndexOfPrefix(a: Line, rest: Line)
    requires '\n' !in a
    ensures IndexOf(a + "\n" + rest, '\n') == |a|
  {
    var s := a + "\n" + rest;
    var i := IndexOf(s, '\n');
    assert forall j :: 0 <= j < |a| ==> s[j] == a[j];
    assert forall j :: |a| < j <= |s| ==> s[..j][|a|] == '\n';
  }

  lemma {:induction false} JoinNonEmpty(ls: seq<Line>)
    requires ls != [] && ls[|ls| - 1] != []
    ensures Join(ls) != []
    decreases |ls|
  {
    if |ls| > 1 {
      JoinNonEmpty(ls[1..]);
    }
  }

  /** Joining the lines of a text restores it, when the text holds no
      carriage return and does not end in a line feed. */
  lemma {:induction false} JoinOfLines(s: Line)
    requires '\r' !in s
    requires s == [] || s[|s| - 1] != '\n'
    ensures Join(Lines(s)) == s
    decreases |s|
  {
    if s != [] {
      var i := IndexOf(s, '\n');
      if i < |s| {
        var tail := s[i + 1..];
        assert tail != [];
        assert '\r' !in s[..i];
        assert StripCr(s[..i]) == s[..i];
        JoinOfLines(tail);
        assert Lines(tail) != [];
        assert s == s[..i] + "\n" + tail;
      }
    }
  }

  /** `String::insert_str` at a byte offset. */
  function InsertAt(l: Line, at: nat, piece: Line): (r: Line)
    requires at <= |l|
    ensures |r| == |l| + |piece|
    ensures r[..at] == l[..at] && r[at..at + |piece|] == piece && r[at + |piece|..] == l[at..]
  {
    l[..at] + piece + l[at..]
  }

  /** `String::remove` at a byte offset. */
  function RemoveAt(l: Line, at: nat): (r: Line)
    requires at < |l|
    ensures |r| == |l| - 1
    ensures r[..at] == l[..at] && r[at..] == l[at + 1..]
  {
    l[..at] + l[at + 1..]
  }

  /** Removing what was just inserted gives the line back. */
  lemma RemoveInserted(l: Line, at: nat, c: AsciiChar)
    requires at <= |l|
    ensures RemoveAt(InsertAt(l, at, [c]), at) == l
  {
    var r := RemoveAt(InsertAt(l, at, [c]), at);
    assert r == r[..at] + r[at..];
    assert l == l[..at] + l[at..];
  }
}
