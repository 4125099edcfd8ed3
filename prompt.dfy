/** The prompts the two editors print in front of the line being edited, and
    the number of screen columns each takes. */
module Prompt {

  function DigitChar(d: nat): (c: char)
    requires d < 10
    ensures '0' <= c <= '9'
  {
    ('0' as int + d) as char
  }

  /** Number of decimal digits of `n`. */
  function NumDigits(n: nat): (k: nat)
    ensures k >= 1
  {
    if n < 10 then 1 else 1 + NumDigits(n / 10)
  }

  /** `n` formatted by `{}`: its decimal digits, most significant first. */
  function Decimal(n: nat): (r: string)
    ensures forall i :: 0 <= i < |r| ==> '0' <= r[i] <= '9'
  {
    if n < 10 then [DigitChar(n)] else Decimal(n / 10) + [DigitChar(n % 10)]
  }

  /** Reads a string of decimal digits back as a number. */
  function ParseDecimal(s: string): nat
    requires forall i :: 0 <= i < |s| ==> '0' <= s[i] <= '9'
  {
    if s == [] then 0
    else ParseDecimal(s[..|s| - 1]) * 10 + (s[|s| - 1] as int - '0' as int)
  }

  /** The printed label reads back as the line number it shows. */
  lemma {:induction false} DecimalRoundTrip(n: nat)
    ensures ParseDecimal(Decimal(n)) == n
    decreases n
  {
    if n >= 10 {
      var s := Decimal(n);
      assert s[..|s| - 1] == Decimal(n / 10);
      DecimalRoundTrip(n / 10);
    }
  }

  lemma {:induction false} DecimalLength(n: nat)
    ensures |Decimal(n)| == NumDigits(n)
    decreases n
  {
    if n >= 10 {
      DecimalLength(n / 10);
    }
  }

  lemma {:induction false} NumDigitsMonotone(a: nat, b: nat)
    requires a <= b
    ensures NumDigits(a) <= NumDigits(b)
    decreases b
  {
    if a >= 10 {
      NumDigitsMonotone(a / 10, b / 10);
    }
  }

  /** `format!("{:2}", s)`: right-aligned in a field of at least `width`
      columns, padded with spaces. */
  function PadLeft(s: string, width: nat): (r: string)
    ensures |r| == if |s| < width then width else |s|
    ensures r[|r| - |s|..] == s
    ensures forall i :: 0 <= i < |r| - |s| ==> r[i] == ' '
  {
    if |s| < width then seq(width - |s|, _ => ' ') + s else s
  }

  /** `print_prompt_with_line_number(n)`: the text `format!("{:2}> ", n)`. */
  function NumberedPrompt(n: nat): (r: string)
    ensures |r| >= 4 && |r| >= |Decimal(n)| + 2 && r[|r| - 2..] == "> "
    ensures r[..|r| - 2 - |Decimal(n)|] == seq(|r| - 2 - |Decimal(n)|, _ => ' ')
    ensures r[|r| - 2 - |Decimal(n)|..|r| - 2] == Decimal(n)
  {
    PadLeft(Decimal(n), 2) + "> "
  }

  /** `get_prompt_width(n)`: two columns for the number (more once it has
      more digits) plus two for "> ". */
  function PromptWidth(n: nat): (w: nat)
    ensures w >= 4 && w >= NumDigits(n) + 2
  {
    (if NumDigits(n) < 2 then 2 else NumDigits(n)) + 2
  }

  /** `get_prompt_width` measures the very text that
      `print_prompt_with_line_number` prints. */
  lemma PromptWidthIsPrintedLength(n: nat)
    ensures PromptWidth(n) == |NumberedPrompt(n)|
  {
    DecimalLength(n);
  }

  /** Lines 1 to 99 get a four-column prompt; from line 100 on the prompt
      grows with the number, and the width still matches what is printed. */
  lemma PromptWidthByLineNumber(n: nat)
    ensures n < 100 ==> PromptWidth(n) == 4
    ensures n >= 100 ==> PromptWidth(n) == NumDigits(n) + 2 > 4
  {
    if n >= 100 {
      assert n / 10 >= 10;
      assert NumDigits(n) == 2 + NumDigits(n / 10 / 10);
    } else if n >= 10 {
      assert n / 10 < 10;
      assert NumDigits(n) == 2;
    }
  }

  /** The prompt of input.rs ("> ") or of stdin_handler.rs (numbered). */
  datatype PromptStyle = Fixed | Numbered

  /** The prompt printed for the line after `committed` committed lines. */
  function PromptFor(p: PromptStyle, committed: nat): string {
    match p
    case Fixed => "> "
    case Numbered => NumberedPrompt(committed + 1)
  }

  /** The column at which the editable text starts: the hard-coded 2 of
      input.rs, or `get_prompt_width(builder.len() + 1)` in stdin_handler.rs. */
  function Width(p: PromptStyle, committed: nat): (w: nat)
    ensures w >= 2
  {
    match p
    case Fixed => 2
    case Numbered => PromptWidth(committed + 1)
  }

  /** Each editor's column arithmetic uses the length of the prompt it prints. */
  lemma WidthIsPromptLength(p: PromptStyle, committed: nat)
    ensures Width(p, committed) == |PromptFor(p, committed)|
  {
    PromptWidthIsPrintedLength(committed + 1);
  }

  /** Committing lines never makes the prompt narrower. */
  lemma WidthMonotone(p: PromptStyle, a: nat, b: nat)
    requires a <= b
    ensures Width(p, a) <= Width(p, b)
  {
    NumDigitsMonotone(a + 1, b + 1);
  }
}
