/** The lexer of string literals (llex.c, read_string), character by character. */
module StringLexer {
  import opened Base
  import opened Bytes
  import opened Quoting

  /** b, and then the characters of the literal that is read. */
  function PrependAll(b: Text, r: Result<Literal>): Result<Literal> {
    match r
    case Ok(l) => Ok(l.(chars := b + l.chars))
    case Err => Err
  }

  lemma PrependMore(b: Text, c: Byte, r: Result<Literal>)
    ensures PrependAll(b, Prepend(c, r)) == PrependAll(b + [c], r)
  {
    if r.Ok? {
      assert b + ([c] + r.value.chars) == b + [c] + r.value.chars;
    }
  }

  lemma PrependNone(r: Result<Literal>)
    ensures PrependAll([], r) == r
  {
    if r.Ok? {
      assert [] + r.value.chars == r.value.chars;
    }
  }

  class LexState {
    const input: Text
    var pos: nat
    var current: int                    // the current character, or EOZ
    var linenumber: int
    var buff: Text

    constructor (input: Text)
      ensures Valid() && Ahead() == input && linenumber == 1 && buff == []
    {
      this.input, linenumber, buff := input, 1, [];
      if |input| > 0 {
        current, pos := input[0], 1;
      } else {
        current, pos := EOZ, 0;
      }
    }

    ghost predicate Valid()
      reads this
    {
      pos <= |input| && if current == EOZ then pos == |input| else 0 <= current < 256
    }

    /** The input from the current character on. */
    ghost function Ahead(): Text
      requires Valid()
      reads this
    {
      if current == EOZ then [] else [current] + input[pos..]
    }

    /** next. */
    method Next()
      requires Valid() && current != EOZ
      modifies `pos, `current
      ensures Valid() && Ahead() == old(Ahead())[1..]
    {
      if pos < |input| {
        assert input[pos..] == [input[pos]] + input[pos + 1..];
        current, pos := input[pos], pos + 1;
      } else {
        current := EOZ;
      }
    }

    method Save(c: Byte)
      modifies `buff
      ensures buff == old(buff) + [c]
    {
      buff := buff + [c];
    }

    /** inclinenumber. */
    method IncLineNumber() returns (r: Result<()>)
      requires Valid() && IsNewline(current)
      modifies `pos, `current, `linenumber
      ensures Valid() && r.Ok? == (old(linenumber) + 1 < MAX_INT) && linenumber == old(linenumber) + 1
      ensures Ahead() == old(Ahead())[NewlineSize(old(Ahead()))..]
    {
      var was := current;
      ghost var s := Ahead();
      Next();
      if IsNewline(current) && current != was {
        Next();
        assert s[1..][1..] == s[2..];
      }
      linenumber := linenumber + 1;
      return if linenumber >= MAX_INT then Err else Ok(());
    }

    /** The decimal escape of read_string. */
    method ReadDecimal() returns (c: int)
      requires Valid() && IsDigit(current)
      modifies `pos, `current
      ensures Valid()
      ensures var s := old(Ahead()); c == Decimal(s[..Digits(s)]) && Ahead() == s[Digits(s)..]
    {
      hide Decimal, Digits;
      ghost var s := Ahead();
      c := 0;
      var i := 0;
      DecimalNone(s);
      while i == 0 || (i < 3 && IsDigit(current))
        invariant 0 <= i <= Digits(s) && i <= |s| && Valid() && Ahead() == s[i..] && c == Decimal(s[..i])
        invariant i == 0 ==> IsDigit(current)
        decreases 3 - i
      {
        assert Ahead()[0] == s[i];
        DigitsAt(s, i);
        DecimalMore(s, i);
        c := 10 * c + (current - ZERO);
        Next();
        i := i + 1;
        assert s[i - 1..][1..] == s[i..];
      }
      assert i < |s| ==> Ahead()[0] == s[i];
      DigitsEnd(s, i);
    }

    /** Everything saved so far, and what is still to be read, make up the literal. */
    ghost predicate Going(del: Byte, target: Result<Literal>)
      reads this
    {
      Valid() && |buff| >= 1 && PrependAll(buff[1..], ReadLiteral(Ahead(), linenumber, del)) == target
    }

    /** A character of the literal is saved. */
    method SaveMore(c: Byte, ghost del: Byte, ghost target: Result<Literal>)
      requires Valid() && |buff| >= 1
      requires PrependAll(buff[1..], Prepend(c, ReadLiteral(Ahead(), linenumber, del))) == target
      modifies `buff
      ensures Going(del, target)
    {
      hide ReadLiteral;
      PrependMore(buff[1..], c, ReadLiteral(Ahead(), linenumber, del));
      assert (buff + [c])[1..] == buff[1..] + [c];
      Save(c);
    }

    /** The escape sequences of read_string. */
    method ReadEscape(del: Byte, ghost target: Result<Literal>) returns (r: Result<()>)
      requires current == BACKSLASH != del && Going(del, target)
      modifies `pos, `current, `linenumber, `buff
      ensures r.Ok? ==> Going(del, target) && |Ahead()| < |old(Ahead())|
      ensures r.Err? ==> target.Err?
    {
      hide ReadLiteral, Digits, Decimal, Escape, PrependAll, Prepend;
      ghost var s, line := Ahead(), linenumber;
      EscapeStep(s, line, del);
      PrependErr(buff[1..]);
      Next();                                           // do not save the backslash
      if current == EOZ {
        return Ok(());                                  // an error in the next turn
      }
      assert Ahead() == s[1..] && Ahead()[0] == current;
      if Escape(current).Some? {
        var c := Escape(current).value;
        Next();
        assert s[1..][1..] == s[2..];
        SaveMore(c, del, target);
      } else if IsNewline(current) {
        ghost var k := NewlineSize(s[1..]);
        var _ :- IncLineNumber();
        assert s[1..][k..] == s[1 + k..];
        SaveMore(LF, del, target);
      } else if IsDigit(current) {
        ghost var n := Digits(s[1..]);
        var c := ReadDecimal();
        assert s[1..][n..] == s[1 + n..] && s[1..][..n] == s[1..1 + n];
        if c > 255 {
          return Err;
        }
        DecimalPositive(s[1..]);
        SaveMore(c, del, target);
      } else {
        var c := current;
        Next();
        assert s[1..][1..] == s[2..];
        SaveMore(c, del, target);
      }
      return Ok(());
    }

    /** read_string: the current character is the delimiter that opens the literal. */
    method ReadString(del: Byte) returns (r: Result<Text>)
      requires Valid() && current == del && !IsNewline(del) && del != BACKSLASH && buff == []
      modifies this
      ensures match ReadLiteral(old(Ahead())[1..], old(linenumber), del)
              case Ok(l) => r == Ok(l.chars) && Valid() && Ahead() == l.rest && linenumber == l.line
              case Err => r.Err?
    {
      hide ReadLiteral;
      ghost var target := ReadLiteral(Ahead()[1..], linenumber, del);
      Save(current);
      Next();
      PrependNone(ReadLiteral(Ahead(), linenumber, del));
      assert buff[1..] == [];
      while current != del
        invariant Going(del, target)
        decreases |Ahead()|
      {
        ReadStep(Ahead(), linenumber, del);
        if current == EOZ || IsNewline(current) {
          return Err;
        } else if current == BACKSLASH {
          var _ :- ReadEscape(del, target);
        } else {
          var c := current;
          Next();
          SaveMore(c, del, target);
        }
      }
      ReadStep(Ahead(), linenumber, del);
      Save(current);
      Next();
      assert buff[1..|buff| - 1] + [] == buff[1..|buff| - 1];
      return Ok(buff[1..|buff| - 1]);
    }
  }

  lemma PrependErr(b: Text)
    ensures PrependAll(b, Err).Err? && forall c :: PrependAll(b, Prepend(c, Err)).Err?
  {
  }

  lemma DecimalNone(s: Text)
    ensures Decimal(s[..0]) == 0
  {
  }

  lemma DecimalMore(s: Text, i: nat)
    requires i < |s|
    ensures Decimal(s[..i + 1]) == 10 * Decimal(s[..i]) + (s[i] - ZERO)
  {
    assert s[..i + 1][..i] == s[..i];
  }

  lemma DigitsAt(s: Text, i: nat)
    requires (i == 0 && |s| > 0 && IsDigit(s[0])) || (0 < i < 3 && i <= Digits(s) && i < |s| && IsDigit(s[i]))
    ensures i + 1 <= Digits(s) <= |s|
  {
  }

  lemma DigitsEnd(s: Text, i: nat)
    requires 0 < i <= Digits(s) && (i >= 3 || i == |s| || !IsDigit(s[i]))
    ensures i == Digits(s)
  {
  }

  lemma DecimalPositive(s: Text)
    requires |s| > 0 && IsDigit(s[0])
    ensures Decimal(s[..Digits(s)]) >= 0
  {
    var n := Digits(s);
    assert forall i :: 0 <= i < n ==> IsDigit(s[i]);
    DecimalNatural(s[..n]);
  }

  lemma {:induction false} DecimalNatural(s: Text)
    requires forall i :: 0 <= i < |s| ==> IsDigit(s[i])
    ensures Decimal(s) >= 0
  {
    if |s| > 0 {
      DecimalNatural(s[..|s| - 1]);
    }
  }

  lemma ReadStep(s: Text, line: int, del: Byte)
    ensures |s| == 0 ==> ReadLiteral(s, line, del).Err?
    ensures |s| > 0 && s[0] == del ==> ReadLiteral(s, line, del) == Ok(Literal([], s[1..], line))
    ensures |s| > 0 && s[0] != del && IsNewline(s[0]) ==> ReadLiteral(s, line, del).Err?
    ensures |s| > 0 && s[0] != del && !IsNewline(s[0]) && s[0] != BACKSLASH ==>
              ReadLiteral(s, line, del) == Prepend(s[0], ReadLiteral(s[1..], line, del))
  {
  }

  lemma EscapeStep(s: Text, line: int, del: Byte)
    requires |s| > 0 && s[0] == BACKSLASH != del
    ensures |s| == 1 ==> ReadLiteral(s, line, del) == Err == ReadLiteral(s[1..], line, del)
    ensures |s| > 1 && Escape(s[1]).Some? ==>
              ReadLiteral(s, line, del) == Prepend(Escape(s[1]).value, ReadLiteral(s[2..], line, del))
    ensures |s| > 1 && Escape(s[1]).None? && IsNewline(s[1]) ==>
              (ReadLiteral(s, line, del) ==
                 if line + 1 >= MAX_INT then Err
                   else Prepend(LF, ReadLiteral(s[1 + NewlineSize(s[1..])..], line + 1, del)))
    ensures |s| > 1 && Escape(s[1]).None? && !IsNewline(s[1]) && IsDigit(s[1]) ==>
              (var n := Digits(s[1..]);
               var c := Decimal(s[1..1 + n]);
               ReadLiteral(s, line, del) == if 0 <= c < 256 then Prepend(c, ReadLiteral(s[1 + n..], line, del))
                 else Err)
    ensures |s| > 1 && Escape(s[1]).None? && !IsNewline(s[1]) && !IsDigit(s[1]) ==>
              ReadLiteral(s, line, del) == Prepend(s[1], ReadLiteral(s[2..], line, del))
  {
  }

  /** Lexing what %q has written gives the string back and stops after the closing quote. */
  method ReadBack(s: Text, rest: Text) returns (r: Result<Text>, ghost lex: LexState)
    ensures r == if LinesFit(s, 1) then Ok(s) else Err
    ensures r.Ok? ==> lex.Valid() && lex.Ahead() == rest && lex.linenumber == 1 + Newlines(s)
  {
    hide ReadLiteral, QuoteBody;
    var q := AddQuoted(s);
    var ls := new LexState(q + rest);
    assert (q + rest)[1..] == QuoteBody(s) + [QUOTE] + rest;
    ReadQuoted(s, rest, 1);
    assert ls.Ahead()[0] == QUOTE;
    r := ls.ReadString(QUOTE);
    lex := ls;
  }
}
