/** main.rs, `print_result` and `find_raw_string_delimiter`: the input text
    written as a Rust string literal in one of three quoting styles. */
module Literal {
  import opened Events

  /** `QuoteStyle`. */
  datatype QuoteStyle = Double | Single | Raw

  /** No character of `s` is `c`. */
  predicate Lacks(s: string, c: char) {
    forall i :: 0 <= i < |s| ==> s[i] != c
  }

  /** `str::replace(from, to)` with a character pattern: every `from` is
      replaced by `to`, left to right. */
  function Replace(s: string, from: char, to: string): (r: string)
    ensures Lacks(to, from) ==> Lacks(r, from)
    decreases |s|
  {
    if s == [] then [] else (if s[0] == from then to else [s[0]]) + Replace(s[1..], from, to)
  }

  /** `replace` brings in no character that neither the text nor the
      replacement holds. */
  lemma {:induction false} ReplaceKeepsAbsent(s: string, from: char, to: string, c: char)
    requires Lacks(s, c) && Lacks(to, c)
    ensures Lacks(Replace(s, from, to), c)
    decreases |s|
  {
    if s != [] {
      ReplaceKeepsAbsent(s[1..], from, to, c);
    }
  }

  lemma {:induction false} ReplaceAppend(a: string, b: string, from: char, to: string)
    ensures Replace(a + b, from, to) == Replace(a, from, to) + Replace(b, from, to)
    decreases |a|
  {
    if a != [] {
      assert (a + b)[0] == a[0] && (a + b)[1..] == a[1..] + b;
      ReplaceAppend(a[1..], b, from, to);
    } else {
      assert a + b == b;
    }
  }

  /** A lone character is replaced or kept. */
  lemma ReplaceOne(c: char, from: char, to: string)
    ensures Replace([c], from, to) == if c == from then to else [c]
  {
    assert [c][1..] == [];
  }

  /** Text without `from` is left as it is. */
  lemma {:induction false} ReplaceAbsent(s: string, from: char, to: string)
    requires forall i :: 0 <= i < |s| ==> s[i] != from
    ensures Replace(s, from, to) == s
    decreases |s|
  {
    if s != [] {
      ReplaceAbsent(s[1..], from, to);
    }
  }

  /** The chain of `replace` calls of `print_result`, with `quote` the
      character the style escapes: '"' for Double, '\'' for Single. The
      backslash goes first, so the backslashes the later calls add are not
      doubled. */
  function EscapeChain(s: string, quote: char): (r: string)
    ensures Lacks(r, '\n') && Lacks(r, '\r') && Lacks(r, '\t')
  {
    var s1 := Replace(s, '\\', "\\\\");
    var s2 := Replace(s1, quote, ['\\', quote]);
    var s3 := Replace(s2, '\n', "\\n");
    var s4 := Replace(s3, '\r', "\\r");
    ReplaceKeepsAbsent(s3, '\r', "\\r", '\n');
    ReplaceKeepsAbsent(s4, '\t', "\\t", '\n');
    ReplaceKeepsAbsent(s4, '\t', "\\t", '\r');
    Replace(s4, '\t', "\\t")
  }

  /** How one character is written between the quotes. */
  function EscapeChar(c: char, quote: char): (r: string)
    ensures |r| >= 1
  {
    if c == '\\' then "\\\\"
    else if c == quote then ['\\', quote]
    else if c == '\n' then "\\n"
    else if c == '\r' then "\\r"
    else if c == '\t' then "\\t"
    else [c]
  }

  /** Every character written on its own, independently of its neighbours. */
  function EscapeEach(s: string, quote: char): (r: string)
    ensures quote != '\n' && quote != '\r' && quote != '\t' ==>
      forall i :: 0 <= i < |r| ==> r[i] != '\n' && r[i] != '\r' && r[i] != '\t'
    decreases |s|
  {
    if s == [] then [] else EscapeChar(s[0], quote) + EscapeEach(s[1..], quote)
  }

  lemma EscapeChainAppend(a: string, b: string, quote: char)
    ensures EscapeChain(a + b, quote) == EscapeChain(a, quote) + EscapeChain(b, quote)
  {
    var s1a, s1b := Replace(a, '\\', "\\\\"), Replace(b, '\\', "\\\\");
    ReplaceAppend(a, b, '\\', "\\\\");
    var s2a, s2b := Replace(s1a, quote, ['\\', quote]), Replace(s1b, quote, ['\\', quote]);
    ReplaceAppend(s1a, s1b, quote, ['\\', quote]);
    var s3a, s3b := Replace(s2a, '\n', "\\n"), Replace(s2b, '\n', "\\n");
    ReplaceAppend(s2a, s2b, '\n', "\\n");
    var s4a, s4b := Replace(s3a, '\r', "\\r"), Replace(s3b, '\r', "\\r");
    ReplaceAppend(s3a, s3b, '\r', "\\r");
    ReplaceAppend(s4a, s4b, '\t', "\\t");
  }

  /** The escapes of one character survive the later `replace` calls: the
      chain writes a lone character as `EscapeChar` does. */
  lemma EscapeChainChar(c: char, quote: char)
    requires quote == '"' || quote == '\''
    ensures EscapeChain([c], quote) == EscapeChar(c, quote)
  {
    ReplaceOne(c, '\\', "\\\\");
    var s1 := Replace([c], '\\', "\\\\");
    var s2 := Replace(s1, quote, ['\\', quote]);
    if c == '\\' {
      ReplaceAbsent(s1, quote, ['\\', quote]);
    } else {
      ReplaceOne(c, quote, ['\\', quote]);
    }
    var s3 := Replace(s2, '\n', "\\n");
    if c == '\\' || c == quote {
      ReplaceAbsent(s2, '\n', "\\n");
    } else {
      ReplaceOne(c, '\n', "\\n");
    }
    var s4 := Replace(s3, '\r', "\\r");
    if c == '\\' || c == quote || c == '\n' {
      ReplaceAbsent(s3, '\r', "\\r");
    } else {
      ReplaceOne(c, '\r', "\\r");
    }
    if c == '\\' || c == quote || c == '\n' || c == '\r' {
      ReplaceAbsent(s4, '\t', "\\t");
    } else {
      ReplaceOne(c, '\t', "\\t");
    }
  }

  /** The chain of `replace` calls writes every character on its own. */
  lemma {:induction false} EscapeChainIsEach(s: string, quote: char)
    requires quote == '"' || quote == '\''
    ensures EscapeChain(s, quote) == EscapeEach(s, quote)
    decreases |s|
  {
    if s != [] {
      assert s == [s[0]] + s[1..];
      EscapeChainAppend([s[0]], s[1..], quote);
      EscapeChainChar(s[0], quote);
      EscapeChainIsEach(s[1..], quote);
    }
  }

  /** What the escaped text reads back as between quotes `quote`: `\\`,
      `\n`, `\r`, `\t` and a backslash before the quote are escapes, any
      other backslash or a bare quote ends the reading with None. */
  function Unescape(body: string, quote: char): Option<string>
    decreases |body|
  {
    if body == [] then Some([])
    else if body[0] == quote then None
    else if body[0] == '\\' then
      if |body| < 2 then None
      else
        var e := body[1];
        var c :=
          if e == '\\' then Some('\\')
          else if e == quote then Some(quote)
          else if e == 'n' then Some('\n')
          else if e == 'r' then Some('\r')
          else if e == 't' then Some('\t')
          else None;
        match (c, Unescape(body[2..], quote))
        case (Some(x), Some(rest)) => Some([x] + rest)
        case _ => None
    else
      match Unescape(body[1..], quote)
      case Some(rest) => Some([body[0]] + rest)
      case None => None
  }

  /** One escaped character reads back as that character. */
  lemma UnescapeChar(c: char, quote: char, tail: string, rest: string)
    requires quote != '\\' && quote != 'n' && quote != 'r' && quote != 't'
    requires Unescape(tail, quote) == Some(rest)
    ensures Unescape(EscapeChar(c, quote) + tail, quote) == Some([c] + rest)
  {
    var body := EscapeChar(c, quote) + tail;
    if |EscapeChar(c, quote)| == 2 {
      assert body[0] == '\\' && body[1] == EscapeChar(c, quote)[1];
      assert body[2..] == tail;
    } else {
      assert body[0] == c && body[1..] == tail;
    }
  }

  /** The escapes read back as the text: escaping loses nothing. */
  lemma {:induction false} UnescapeEach(s: string, quote: char)
    requires quote != '\\' && quote != 'n' && quote != 'r' && quote != 't'
    ensures Unescape(EscapeEach(s, quote), quote) == Some(s)
    decreases |s|
  {
    if s != [] {
      UnescapeEach(s[1..], quote);
      UnescapeChar(s[0], quote, EscapeEach(s[1..], quote), s[1..]);
      assert s == [s[0]] + s[1..];
    }
  }

  /** `print_result`: the text as a literal of the chosen style. */
  function FormatLiteral(s: string, style: QuoteStyle): (r: string)
    ensures |r| >= 2
    ensures style == Double ==> r[0] == '"' && r[|r| - 1] == '"' && Lacks(r, '\n') && Lacks(r, '\r')
    ensures style == Single ==> r[0] == '\'' && r[|r| - 1] == '\'' && Lacks(r, '\n') && Lacks(r, '\r')
    ensures style == Raw ==> r[0] == 'r' && r[|r| - 1] == '#'
  {
    match style
    case Double => "\"" + EscapeChain(s, '"') + "\""
    case Single => "'" + EscapeChain(s, '\'') + "'"
    case Raw => RawLiteral(s, RawDelimiter(s))
  }

  /** Reads a quoted literal back: the quotes around it, and the escapes in
      between. */
  function ReadQuoted(lit: string, quote: char): Option<string> {
    if |lit| < 2 || lit[0] != quote || lit[|lit| - 1] != quote then None
    else Unescape(lit[1..|lit| - 1], quote)
  }

  /** The Double and Single literals read back as the text they were made
      from, and hold no raw line feed, carriage return or tab. */
  lemma QuotedRoundTrip(s: string)
    ensures ReadQuoted(FormatLiteral(s, Double), '"') == Some(s)
    ensures ReadQuoted(FormatLiteral(s, Single), '\'') == Some(s)
    ensures forall i :: 0 <= i < |FormatLiteral(s, Double)| ==>
      FormatLiteral(s, Double)[i] != '\n' && FormatLiteral(s, Double)[i] != '\r'
    ensures forall i :: 0 <= i < |FormatLiteral(s, Single)| ==>
      FormatLiteral(s, Single)[i] != '\n' && FormatLiteral(s, Single)[i] != '\r'
  {
    EscapeChainIsEach(s, '"');
    EscapeChainIsEach(s, '\'');
    UnescapeEach(s, '"');
    UnescapeEach(s, '\'');
    var d := FormatLiteral(s, Double);
    assert d[1..|d| - 1] == EscapeEach(s, '"');
    var q := FormatLiteral(s, Single);
    assert q[1..|q| - 1] == EscapeEach(s, '\'');
  }

  /** Different texts are written differently: a literal backslash-n and
      a line feed cannot come out alike. */
  lemma EscapeInjective(a: string, b: string, quote: char)
    requires quote == '"' || quote == '\''
    ensures EscapeChain(a, quote) == EscapeChain(b, quote) ==> a == b
  {
    EscapeChainIsEach(a, quote);
    EscapeChainIsEach(b, quote);
    UnescapeEach(a, quote);
    UnescapeEach(b, quote);
  }

  /** The Single style leaves double quotes as they are, and writes every
      single quote with a backslash. */
  lemma SingleKeepsDoubleQuotes(s: string)
    ensures EscapeChain(s, '\'') == EscapeEach(s, '\'')
    ensures forall i :: 0 <= i < |s| && s[i] == '"' ==> EscapeChar(s[i], '\'') == "\""
    ensures forall i :: 0 <= i < |s| && s[i] == '\'' ==> EscapeChar(s[i], '\'') == "\\'"
  {
    SingleChainIsEach(s);
  }

  /** `EscapeChainIsEach` for the Single style. */
  lemma SingleChainIsEach(s: string)
    ensures EscapeChain(s, '\'') == EscapeEach(s, '\'')
  {
    EscapeChainIsEach(s, '\'');
  }

  /** Escaping distributes over concatenation. */
  lemma {:induction false} EscapeEachAppend(a: string, b: string, quote: char)
    ensures EscapeEach(a + b, quote) == EscapeEach(a, quote) + EscapeEach(b, quote)
    decreases |a|
  {
    if a != [] {
      assert (a + b)[0] == a[0] && (a + b)[1..] == a[1..] + b;
      EscapeEachAppend(a[1..], b, quote);
    } else {
      assert a + b == b;
    }
  }

  /** The one-character cases of the escaping tests of main.rs. */
  lemma EscapeCharExamples()
    ensures EscapeChain("", '"') == ""
    ensures EscapeChain("\"", '"') == "\\\""
    ensures EscapeChain("\\", '"') == "\\\\"
    ensures EscapeChain("\n", '"') == "\\n"
    ensures EscapeChain("\r", '"') == "\\r"
    ensures EscapeChain("\t", '"') == "\\t"
  {
    EscapeChainChar('"', '"');
    EscapeChainChar('\\', '"');
    EscapeChainChar('\n', '"');
    EscapeChainChar('\r', '"');
    EscapeChainChar('\t', '"');
  }

  /** Plain text is left alone (stated of `EscapeEach`, which
      `EscapeChainIsEach` equates with the chain). */
  lemma EscapePlainExample()
    ensures EscapeEach("simple", '"') == "simple"
  {
    EscapeLeavesPlain("simple", '"');
  }

  /** Text with no backslash, no quote of the style and no line feed,
      carriage return or tab is written as it is. */
  lemma {:induction false} EscapeLeavesPlain(s: string, quote: char)
    requires forall i :: 0 <= i < |s| ==>
      s[i] != '\\' && s[i] != quote && s[i] != '\n' && s[i] != '\r' && s[i] != '\t'
    ensures EscapeEach(s, quote) == s
    decreases |s|
  {
    if s != [] {
      EscapeLeavesPlain(s[1..], quote);
      assert s == [s[0]] + s[1..];
    }
  }

  /** A backslash written out before n, r and t is doubled, not read as an
      escape. */
  lemma EscapeBackslashLettersExample()
    ensures EscapeEach("\\n\\r\\t", '"') == "\\\\n\\\\r\\\\t"
  {
  }

  /** Each style puts a backslash before its own quote only, and both
      write a line feed as `\n`. */
  lemma QuoteStyleExample()
    ensures EscapeEach("a\"b'\n", '"') == "a\\\"b'\\n"
    ensures EscapeEach("a\"b'\n", '\'') == "a\"b\\'\\n"
  {
  }

  /** `s` repeated `n` times: `"#".repeat(n)`. */
  function Repeat(c: char, n: nat): (r: string)
    ensures |r| == n && forall i :: 0 <= i < n ==> r[i] == c
  {
    seq(n, _ => c)
  }

  /** The number of '"' at the start of `s`. */
  function LeadingQuotes(s: string): nat
    decreases |s|
  {
    if s == [] || s[0] != '"' then 0 else 1 + LeadingQuotes(s[1..])
  }

  /** The leading quotes are a run of quotes that the next character, if
      any, does not extend. */
  lemma {:induction false} LeadingQuotesRun(s: string)
    ensures QuoteRunAt(s, 0, LeadingQuotes(s))
    ensures LeadingQuotes(s) < |s| ==> s[LeadingQuotes(s)] != '"'
    decreases |s|
  {
    if s != [] && s[0] == '"' {
      LeadingQuotesRun(s[1..]);
    }
  }

  /** The length of the longest run of consecutive '"' in `s`. */
  function MaxQuoteRun(s: string): nat
    decreases |s|
  {
    if s == [] then 0
    else
      var here := LeadingQuotes(s);
      var later := MaxQuoteRun(s[1..]);
      if later < here then here else later
  }

  /** `s` holds `len` quotes in a row from `i` on. */
  predicate QuoteRunAt(s: string, i: int, len: int) {
    0 <= i && 0 <= len && i + len <= |s| && forall k :: i <= k < i + len ==> s[k] == '"'
  }

  /** `MaxQuoteRun` is the longest run: no run of quotes is longer, and one
      is that long. */
  lemma {:induction false} MaxQuoteRunIsLongest(s: string)
    ensures forall i, len :: QuoteRunAt(s, i, len) ==> len <= MaxQuoteRun(s)
    ensures exists i :: QuoteRunAt(s, i, MaxQuoteRun(s))
    decreases |s|
  {
    if s == [] {
      assert QuoteRunAt(s, 0, 0);
    } else {
      var t := s[1..];
      MaxQuoteRunIsLongest(t);
      LeadingQuotesRun(s);
      forall i, len | QuoteRunAt(s, i, len)
        ensures len <= MaxQuoteRun(s)
      {
        if i > 0 {
          assert QuoteRunAt(t, i - 1, len);
        }
      }
      if MaxQuoteRun(t) < LeadingQuotes(s) {
        assert QuoteRunAt(s, 0, MaxQuoteRun(s));
      } else {
        var i :| QuoteRunAt(t, i, MaxQuoteRun(t));
        assert QuoteRunAt(s, i + 1, MaxQuoteRun(s));
      }
    }
  }

  /** `find_raw_string_delimiter` as specified: one '#' more than the
      longest run of quotes. */
  function RawDelimiter(content: string): (d: string)
    ensures |d| >= 1 && forall i :: 0 <= i < |d| ==> d[i] == '#'
    ensures forall i, len :: QuoteRunAt(content, i, len) ==> len < |d|
  {
    MaxQuoteRunIsLongest(content);
    Repeat('#', MaxQuoteRun(content) + 1)
  }

  /** `find_raw_string_delimiter`: one pass over the characters, counting
      the current and the longest run of quotes. */
  method FindRawStringDelimiter(content: string) returns (d: string)
    ensures d == RawDelimiter(content)
  {
    var maxConsecutiveQuotes := 0;
    var currentQuotes := 0;
    ghost var longestAt := 0;
    var i := 0;
    while i < |content|
      invariant 0 <= i <= |content| && currentQuotes <= i
      invariant QuoteRunAt(content, i - currentQuotes, currentQuotes)
      invariant currentQuotes < i ==> content[i - 1 - currentQuotes] != '"'
      invariant forall j, len :: j + len <= i && QuoteRunAt(content, j, len) ==> len <= maxConsecutiveQuotes
      invariant longestAt + maxConsecutiveQuotes <= i && QuoteRunAt(content, longestAt, maxConsecutiveQuotes)
    {
      if content[i] == '"' {
        currentQuotes := currentQuotes + 1;
        if maxConsecutiveQuotes < currentQuotes {
          maxConsecutiveQuotes := currentQuotes;
          longestAt := i + 1 - currentQuotes;
        }
      } else {
        currentQuotes := 0;
      }
      i := i + 1;
      forall j, len | j + len <= i && QuoteRunAt(content, j, len)
        ensures len <= maxConsecutiveQuotes
      {
      }
    }
    MaxQuoteRunIsLongest(content);
    d := Repeat('#', maxConsecutiveQuotes + 1);
  }

  /** Text that ends in other than a quote can be cut there: the longest run
      is the longer of the two sides'. */
  lemma {:induction false} MaxQuoteRunAppend(a: string, b: string)
    requires a == [] || a[|a| - 1] != '"'
    ensures MaxQuoteRun(a + b) == if MaxQuoteRun(a) < MaxQuoteRun(b) then MaxQuoteRun(b) else MaxQuoteRun(a)
    decreases |a|
  {
    if a != [] {
      assert (a + b)[1..] == a[1..] + b;
      LeadingQuotesAppend(a, b);
      MaxQuoteRunAppend(a[1..], b);
    } else {
      assert a + b == b;
    }
  }

  lemma {:induction false} LeadingQuotesAppend(a: string, b: string)
    requires a != [] && a[|a| - 1] != '"'
    ensures LeadingQuotes(a + b) == LeadingQuotes(a)
    decreases |a|
  {
    if a[0] == '"' {
      assert (a + b)[1..] == a[1..] + b;
      LeadingQuotesAppend(a[1..], b);
    }
  }

  /** Text without quotes gets one '#'. */
  lemma NoQuotesDelimiterExample()
    ensures RawDelimiter("Hello world") == "#"
  {
    NoQuotesDelimiter("Hello world");
  }

  /** The same text, held in a variable. */
  lemma NoQuotesDelimiter(t: string)
    requires t == "Hello world"
    ensures RawDelimiter(t) == "#"
  {
    NoQuotesNoRun(t);
    assert Repeat('#', 1) == "#";
  }

  /** Text without a quote has no run of quotes. */
  lemma {:induction false} NoQuotesNoRun(s: string)
    requires forall i :: 0 <= i < |s| ==> s[i] != '"'
    ensures MaxQuoteRun(s) == 0
    decreases |s|
  {
    if s != [] {
      NoQuotesNoRun(s[1..]);
    }
  }

  /** Single quotes make the delimiter two '#' long. */
  lemma QuotedWordDelimiterExample()
    ensures RawDelimiter("Hello \"world\"") == "##"
  {
    assert "Hello \"world\"" == "Hello " + ("\"world" + "\"");
    QuotedWordRun("Hello ", "\"world", "\"");
    assert Repeat('#', 2) == "##";
  }

  /** The text of that example, taken in three pieces cut after other than
      a quote. */
  lemma QuotedWordRun(a: string, b: string, c: string)
    requires a == "Hello " && b == "\"world" && c == "\""
    ensures MaxQuoteRun(a + (b + c)) == 1
  {
    NoQuotesNoRun(a);
    QuoteThenWord();
    MaxQuoteRunAppend(b, c);
    MaxQuoteRunAppend(a, b + c);
  }

  /** The quoted word and the closing quote each hold a run of one. */
  lemma QuoteThenWord()
    ensures MaxQuoteRun("\"world") == 1 && MaxQuoteRun("\"") == 1
  {
    assert MaxQuoteRun("\"world") == 1;
  }

  /** Three quotes in a row make it four '#' long. */
  lemma ThreeQuotesDelimiterExample()
    ensures RawDelimiter("Has \"\"\" three quotes") == "####"
  {
    assert "Has \"\"\" three quotes" == "Has " + ("\"\"\" " + "three quotes");
    ThreeQuotesRun("Has ", "\"\"\" ", "three quotes");
    assert Repeat('#', 4) == "####";
  }

  /** The text of that example, taken in three pieces cut after other than
      a quote. */
  lemma ThreeQuotesRun(a: string, b: string, c: string)
    requires a == "Has " && b == "\"\"\" " && c == "three quotes"
    ensures MaxQuoteRun(a + (b + c)) == 3
  {
    NoQuotesNoRun(a);
    NoQuotesNoRun(c);
    ThreeQuotesThenSpace();
    MaxQuoteRunAppend(b, c);
    MaxQuoteRunAppend(a, b + c);
  }

  /** The three quotes hold a run of three. */
  lemma ThreeQuotesThenSpace()
    ensures MaxQuoteRun("\"\"\" ") == 3
  {
  }

  /** The Raw arm of `print_result`: `r`, the delimiter, a quote, the text
      as it is, a quote and the delimiter again. */
  function RawLiteral(content: string, delimiter: string): (r: string)
    ensures |r| == |content| + 2 * |delimiter| + 3
  {
    "r" + delimiter + "\"" + content + "\"" + delimiter
  }

  /** The Raw style writes the text unchanged between `r`, the delimiter
      and a quote on the left and a quote and the delimiter on the right;
      the delimiter is at least one '#'. */
  lemma RawKeepsContent(s: string)
    ensures var d := RawDelimiter(s);
      && |d| >= 1 && (forall i :: 0 <= i < |d| ==> d[i] == '#')
      && FormatLiteral(s, Raw)[..|d| + 2] == "r" + d + "\""
      && FormatLiteral(s, Raw)[|d| + 2..|d| + 2 + |s|] == s
      && FormatLiteral(s, Raw)[|d| + 2 + |s|..] == "\"" + d
  {
  }

  /** The number of '#' at the start of `s`. */
  function LeadingHashes(s: string): (n: nat)
    ensures n <= |s| && forall i :: 0 <= i < n ==> s[i] == '#'
    ensures n < |s| ==> s[n] != '#'
    decreases |s|
  {
    if s == [] || s[0] != '#' then 0 else 1 + LeadingHashes(s[1..])
  }

  /** Whether `s` starts, at `k`, with a quote and `n` hashes: the end of a
      raw literal opened with `n` hashes. */
  predicate ClosesAt(s: string, k: nat, n: nat) {
    k + 1 + n <= |s| && s[k] == '"' && forall i :: k + 1 <= i < k + 1 + n ==> s[i] == '#'
  }

  /** The first `k` from `from` on at which `s` closes a raw literal of `n`
      hashes, or `|s|` when it never does. */
  function FindCloser(s: string, n: nat, from: nat): (k: nat)
    requires from <= |s|
    ensures from <= k <= |s|
    ensures k < |s| ==> ClosesAt(s, k, n)
    ensures forall j :: from <= j < k ==> !ClosesAt(s, j, n)
    decreases |s| - from
  {
    if from == |s| then |s|
    else if ClosesAt(s, from, n) then from
    else FindCloser(s, n, from + 1)
  }

  /** A simplified reader of a Rust raw string literal: `r`, some hashes, a
      quote, then everything up to the first quote followed by as many
      hashes. Gives the text read and what follows the literal. It does not
      reject a bare carriage return or more than 255 hashes, as Rust does. */
  function ReadRaw(lit: string): Option<(string, string)> {
    if lit == [] || lit[0] != 'r' then None
    else
      var n := LeadingHashes(lit[1..]);
      var rest := lit[1 + n..];
      if rest == [] || rest[0] != '"' then None
      else
        var body := rest[1..];
        var k := FindCloser(body, n, 0);
        if k == |body| then None else Some((body[..k], body[k + 1 + n..]))
  }

  /** A raw literal reads back up to the first quote in `content`, the
      quote after it and the delimiter `d` that is followed by as many
      hashes as `d` holds. */
  lemma ReadRawLiteral(content: string, d: string, k: nat)
    requires forall i :: 0 <= i < |d| ==> d[i] == '#'
    requires k < |content + "\"" + d| && ClosesAt(content + "\"" + d, k, |d|)
    requires forall j :: 0 <= j < k ==> !ClosesAt(content + "\"" + d, j, |d|)
    ensures var body := content + "\"" + d;
      ReadRaw(RawLiteral(content, d)) == Some((body[..k], body[k + 1 + |d|..]))
  {
    var body := content + "\"" + d;
    RawLiteralParts(content, d);
    FindCloserFirst(body, |d|, k);
  }

  /** After the `r` come the delimiter's hashes, and after them a quote and
      the rest of the literal. */
  lemma RawLiteralParts(content: string, d: string)
    requires forall i :: 0 <= i < |d| ==> d[i] == '#'
    ensures var lit := RawLiteral(content, d);
      && lit[0] == 'r' && LeadingHashes(lit[1..]) == |d|
      && lit[1 + |d|..] == "\"" + (content + "\"" + d)
  {
    var lit := RawLiteral(content, d);
    assert lit[1..] == d + ("\"" + content + "\"" + d);
    LeadingHashesOf(d, "\"" + content + "\"" + d);
    assert lit[1 + |d|..] == "\"" + (content + "\"" + d);
  }

  /** As written, the delimiter counts runs of quotes, which cannot end a raw
      literal; what ends one is a quote followed by the hashes. The text
      `"##` gets the delimiter "##", and its literal `r##""##"##` ends right
      after the opening quote, leaving `"##` outside it. */
  lemma RawDelimiterCounterexample()
    ensures RawDelimiter("\"##") == "##"
    ensures ReadRaw(RawLiteral("\"##", RawDelimiter("\"##"))) == Some(([], "\"##"))
  {
    assert MaxQuoteRun("\"##") == 1;
    assert Repeat('#', 2) == "##";
    var body := "\"##" + "\"" + "##";
    assert ClosesAt(body, 0, 2);
    ReadRawLiteral("\"##", "##", 0);
    assert body[3..] == "\"##";
  }

  /** The longest run of '#' right after a quote in `s`, over all quotes. */
  function MaxHashesAfterQuote(s: string): (m: nat)
    ensures forall k :: 0 <= k < |s| && s[k] == '"' ==> LeadingHashes(s[k + 1..]) <= m
    decreases |s|
  {
    if s == [] then 0
    else
      var m := MaxHashesAfterQuote(s[1..]);
      var here := if s[0] == '"' then LeadingHashes(s[1..]) else 0;
      assert forall k :: 1 <= k < |s| ==> s[k + 1..] == s[1..][k..];
      if m < here then here else m
  }

  /** The delimiter as evidently intended: as long as the one written, and
      also one '#' longer than any run of hashes that follows a quote in the
      text, so that the text never holds the closing sequence. */
  function SafeRawDelimiter(content: string): (d: string)
    ensures |d| >= 1 && forall i :: 0 <= i < |d| ==> d[i] == '#'
    ensures |d| >= |RawDelimiter(content)| && |d| > MaxHashesAfterQuote(content)
  {
    var q := MaxQuoteRun(content);
    var h := MaxHashesAfterQuote(content);
    Repeat('#', (if q < h then h else q) + 1)
  }

  /** Text without '#', such as every text of the delimiter test of
      main.rs, gets exactly the delimiter written: the correction changes
      nothing the test asserts. */
  lemma SafeKeepsWrittenDelimiter(content: string)
    requires forall i :: 0 <= i < |content| ==> content[i] != '#'
    ensures SafeRawDelimiter(content) == RawDelimiter(content)
  {
    NoHashesAfterQuote(content);
  }

  lemma {:induction false} NoHashesAfterQuote(s: string)
    requires forall i :: 0 <= i < |s| ==> s[i] != '#'
    ensures MaxHashesAfterQuote(s) == 0
    decreases |s|
  {
    if s != [] {
      NoHashesAfterQuote(s[1..]);
    }
  }

  /** With the corrected delimiter the literal reads back as exactly the
      text, and nothing follows it. */
  lemma SafeRawRoundTrip(content: string)
    ensures ReadRaw(RawLiteral(content, SafeRawDelimiter(content))) == Some((content, []))
  {
    var d := SafeRawDelimiter(content);
    var n := |d|;
    var body := content + "\"" + d;
    ClosesAfterContent(content, d);
    forall j | 0 <= j < |content|
      ensures !ClosesAt(body, j, n)
    {
      NoCloserInContent(content, body, j, n);
    }
    ReadRawLiteral(content, d, |content|);
  }

  /** The quote after the text and the delimiter close the literal, and
      nothing is left after them. */
  lemma ClosesAfterContent(content: string, d: string)
    requires forall i :: 0 <= i < |d| ==> d[i] == '#'
    ensures var body := content + "\"" + d;
      && ClosesAt(body, |content|, |d|)
      && body[..|content|] == content && body[|content| + 1 + |d|..] == []
  {
    var body := content + "\"" + d;
    assert forall i :: |content| + 1 <= i < |body| ==> body[i] == d[i - |content| - 1];
  }

  /** No quote inside the text is followed by as many hashes as the
      corrected delimiter holds. */
  lemma NoCloserInContent(content: string, body: string, j: nat, n: nat)
    requires body == content + "\"" + SafeRawDelimiter(content)
    requires n == |SafeRawDelimiter(content)| && j < |content|
    ensures !ClosesAt(body, j, n)
  {
    if content[j] == '"' {
      var h := LeadingHashes(content[j + 1..]);
      assert h <= MaxHashesAfterQuote(content) <= n - 1;
      if j + 1 + h < |content| {
        assert content[j + 1..][h] == content[j + 1 + h] == body[j + 1 + h];
        assert body[j + 1 + h] != '#';
      } else {
        assert body[|content|] == '"';
        assert j + 1 <= |content| < j + 1 + n;
      }
    }
  }

  lemma {:induction false} LeadingHashesOf(d: string, t: string)
    requires forall i :: 0 <= i < |d| ==> d[i] == '#'
    requires t != [] && t[0] != '#'
    ensures LeadingHashes(d + t) == |d|
    decreases |d|
  {
    if d != [] {
      assert (d + t)[1..] == d[1..] + t;
      LeadingHashesOf(d[1..], t);
    } else {
      assert d + t == t;
    }
  }

  lemma FindCloserFirst(s: string, n: nat, k: nat)
    requires k < |s| && ClosesAt(s, k, n)
    requires forall j :: 0 <= j < k ==> !ClosesAt(s, j, n)
    ensures FindCloser(s, n, 0) == k
  {
  }
}
