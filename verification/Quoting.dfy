/** `%q` (lstrlib.c, addquoted) and the reading of string literals (llex.c, read_string), its inverse. */
module Quoting {
  import opened Base
  import opened Bytes

  type Text = seq<Byte>

  const QUOTE: Byte := 34
  const BACKSLASH: Byte := 92
  const LF: Byte := 10
  const CR: Byte := 13
  const ZERO: Byte := 48                // the digit 0
  const LETTER_R: Byte := 114

  predicate IsDigit(c: int) { ZERO <= c <= ZERO + 9 }
  predicate IsNewline(c: int) { c == LF || c == CR }

  // ---- Quoting ----

  /** How addquoted writes one character. */
  function QuoteChar(c: Byte): Text {
    if c == QUOTE || c == BACKSLASH || c == LF then [BACKSLASH, c]
    else if c == CR then [BACKSLASH, LETTER_R]
    else if c == 0 then [BACKSLASH, ZERO, ZERO, ZERO]
    else [c]
  }

  function QuoteBody(s: Text): Text { if |s| == 0 then [] else QuoteChar(s[0]) + QuoteBody(s[1..]) }

  function Quote(s: Text): Text { [QUOTE] + QuoteBody(s) + [QUOTE] }

  /** The body of the loop of addquoted. */
  method AddChar(b0: Text, c: Byte) returns (b: Text)
    ensures b == b0 + QuoteChar(c)
  {
    b := b0;
    if c == QUOTE || c == BACKSLASH || c == LF {
      b := b + [BACKSLASH];
      b := b + [c];
    } else if c == CR {
      b := b + [BACKSLASH, LETTER_R];
    } else if c == 0 {
      b := b + [BACKSLASH, ZERO, ZERO, ZERO];
    } else {
      b := b + [c];
    }
  }

  /** addquoted. */
  method AddQuoted(s: Text) returns (b: Text)
    ensures b == Quote(s)
  {
    hide QuoteChar;
    b := [QUOTE];
    assert s[0..] == s;
    for i := 0 to |s|
      invariant b + QuoteBody(s[i..]) == [QUOTE] + QuoteBody(s)
    {
      assert s[i..][0] == s[i] && s[i..][1..] == s[i + 1..];
      ghost var before := b;
      b := AddChar(b, s[i]);
      assert before + (QuoteChar(s[i]) + QuoteBody(s[i + 1..])) == b + QuoteBody(s[i + 1..]);
    }
    assert s[|s|..] == [] && b + [] == b;
    b := b + [QUOTE];
  }

  // ---- What a string literal means ----

  /** The characters of a literal, the input after its closing delimiter, and the line number there. */
  datatype Literal = Literal(chars: Text, rest: Text, line: int)

  function Prepend(c: Byte, r: Result<Literal>): Result<Literal> {
    match r
    case Ok(l) => Ok(l.(chars := [c] + l.chars))
    case Err => Err
  }

  /** The character that an escape letter stands for. */
  function Escape(c: Byte): Option<Byte> {
    match c
    case 97 => Some(7)                  // \a
    case 98 => Some(8)                  // \b
    case 102 => Some(12)                // \f
    case 110 => Some(LF)                // \n
    case 114 => Some(CR)                // \r
    case 116 => Some(9)                 // \t
    case 118 => Some(11)                // \v
    case _ => None
  }

  /** The number of decimal digits at the front of the input, at most three. */
  function Digits(s: Text): (n: nat)
    ensures n <= 3 && n <= |s|
  {
    if |s| == 0 || !IsDigit(s[0]) then 0
    else if |s| == 1 || !IsDigit(s[1]) then 1
    else if |s| == 2 || !IsDigit(s[2]) then 2
    else 3
  }

  function Decimal(s: Text): int { if |s| == 0 then 0 else 10 * Decimal(s[..|s| - 1]) + (s[|s| - 1] - ZERO) }

  /** The end of a line in the input: a newline, or two different ones together. */
  function NewlineSize(s: Text): (n: nat)
    requires |s| > 0
    ensures 1 <= n <= |s|
  {
    if |s| > 1 && IsNewline(s[1]) && s[1] != s[0] then 2 else 1
  }

  function ReadLiteral(s: Text, line: int, del: Byte): Result<Literal>
    decreases |s|
  {
    if |s| == 0 then Err
    else if s[0] == del then Ok(Literal([], s[1..], line))
    else if IsNewline(s[0]) then Err
    else if s[0] != BACKSLASH then Prepend(s[0], ReadLiteral(s[1..], line, del))
    else if |s| == 1 then Err
    else if Escape(s[1]).Some? then Prepend(Escape(s[1]).value, ReadLiteral(s[2..], line, del))
    else if IsNewline(s[1]) then
      if line + 1 >= MAX_INT then Err else Prepend(LF, ReadLiteral(s[1 + NewlineSize(s[1..])..], line + 1, del))
    else if IsDigit(s[1]) then
      var n := Digits(s[1..]);
      var c := Decimal(s[1..1 + n]);
      if 0 <= c < 256 then Prepend(c, ReadLiteral(s[1 + n..], line, del)) else Err
    else Prepend(s[1], ReadLiteral(s[2..], line, del))
  }

  // ---- Quoting and reading ----

  function Newlines(s: Text): nat { if |s| == 0 then 0 else (if s[0] == LF then 1 else 0) + Newlines(s[1..]) }

  /** What follows a quoted character never continues it. */
  lemma {:induction false} QuotedStart(s: Text, rest: Text)
    ensures |QuoteBody(s) + [QUOTE] + rest| > 0 && !IsNewline((QuoteBody(s) + [QUOTE] + rest)[0])
  {
    if |s| > 0 {
      assert QuoteChar(s[0])[0] == (QuoteBody(s) + [QUOTE] + rest)[0];
    }
  }

  lemma ZeroDigits()
    ensures Decimal([ZERO, ZERO, ZERO]) == 0
  {
    assert [ZERO, ZERO, ZERO][..2] == [ZERO, ZERO] && [ZERO, ZERO][..1] == [ZERO] && [ZERO][..0] == [];
    assert Decimal([]) == 0;
    assert Decimal([ZERO]) == 0;
    assert Decimal([ZERO, ZERO]) == 0;
  }

  lemma ReadQuotedChar(c: Byte, more: Text, line: int)
    requires |more| > 0 && !IsNewline(more[0])
    ensures ReadLiteral(QuoteChar(c) + more, line, QUOTE) ==
            if c == LF && line + 1 >= MAX_INT then Err
            else Prepend(c, ReadLiteral(more, if c == LF then line + 1 else line, QUOTE))
  {
    var s := QuoteChar(c) + more;
    if c == 0 {
      assert s[1..][..3] == [ZERO, ZERO, ZERO] == s[1..4];
      assert Digits(s[1..]) == 3;
      ZeroDigits();
      assert s[4..] == more;
    } else if c == QUOTE || c == BACKSLASH || c == LF || c == CR {
      assert s[2..] == more && s[1..] == [s[1]] + more;
    } else {
      assert s[1..] == more;
    }
  }

  /** The line counter does not overflow. */
  predicate LinesFit(s: Text, line: int) { Newlines(s) == 0 || line + Newlines(s) < MAX_INT }

  /**
   * Reading a quoted string gives the string back and stops after the closing quote, exactly if the lines do not run
   * out.
   */
  lemma {:induction false} ReadQuoted(s: Text, rest: Text, line: int)
    ensures ReadLiteral(QuoteBody(s) + [QUOTE] + rest, line, QUOTE) ==
            if LinesFit(s, line) then Ok(Literal(s, rest, line + Newlines(s))) else Err
  {
    hide ReadLiteral, QuoteChar;
    if |s| == 0 {
      assert QuoteBody(s) + [QUOTE] + rest == [QUOTE] + rest;
      ReadClose(rest, line);
    } else {
      var more := QuoteBody(s[1..]) + [QUOTE] + rest;
      assert QuoteBody(s) + [QUOTE] + rest == QuoteChar(s[0]) + more;
      QuotedStart(s[1..], rest);
      ReadQuotedChar(s[0], more, line);
      ReadQuoted(s[1..], rest, if s[0] == LF then line + 1 else line);
      assert [s[0]] + s[1..] == s;
    }
  }

  lemma ReadClose(rest: Text, line: int)
    ensures ReadLiteral([QUOTE] + rest, line, QUOTE) == Ok(Literal([], rest, line))
  {
    assert ([QUOTE] + rest)[1..] == rest;
  }
}
