/** What string literals mean: the pieces of their text, each with the byte that the reference manual gives it. */
module WrittenLiterals {
  import opened Base
  import opened Bytes
  import opened Quoting
  import opened StringLexer

  // ---- The pieces of a literal ----

  type Digit = d: nat | d <= 9

  /** The letters of the escapes for the bytes 7 to 13: a, b, t, n, v, f, r. */
  const LETTERS: Text := [97, 98, 116, 110, 118, 102, 114]

  /** An ordinary byte; a letter of the list; one to three decimal digits; the end of a line; any other byte. */
  datatype Piece =
    | Plain(c: Byte)
    | Named(i: nat)
    | Number(digits: seq<Digit>)
    | LineBreak(ends: Text)
    | Escaped(c: Byte)

  function Value(ds: seq<Digit>): nat {
    if |ds| == 1 then ds[0]
    else if |ds| == 2 then 10 * ds[0] as int + ds[1] as int
    else if |ds| == 3 then 100 * ds[0] as int + 10 * ds[1] as int + ds[2] as int
    else 0
  }

  /** The byte that a piece stands for. */
  function Meaning(p: Piece): int {
    match p
    case Plain(c) => c
    case Named(i) => 7 + i
    case Number(ds) => Value(ds)
    case LineBreak(_) => 10
    case Escaped(c) => c
  }

  function Meanings(ps: seq<Piece>): seq<int> { if |ps| == 0 then [] else [Meaning(ps[0])] + Meanings(ps[1..]) }

  function Breaks(ps: seq<Piece>): nat {
    if |ps| == 0 then 0 else (if ps[0].LineBreak? then 1 else 0) + Breaks(ps[1..])
  }

  // ---- Their text ----

  function DigitText(ds: seq<Digit>): Text { seq(|ds|, i requires 0 <= i < |ds| => 48 + ds[i] as int) }

  function WritePiece(p: Piece): Text {
    match p
    case Plain(c) => [c]
    case Named(i) => [92, if i < 7 then LETTERS[i] else 0]
    case Number(ds) => [92] + DigitText(ds)
    case LineBreak(ends) => [92] + ends
    case Escaped(c) => [92, c]
  }

  function Write(ps: seq<Piece>): Text { if |ps| == 0 then [] else WritePiece(ps[0]) + Write(ps[1..]) }

  /** A piece can stand before `next`: digits and line ends go on as long as they can. */
  predicate ProperPiece(p: Piece, del: Byte, next: Text) {
    match p
    case Plain(c) => c != del && c != 10 && c != 13 && c != 92
    case Named(i) => i < 7
    case Number(ds) =>
      && 1 <= |ds| <= 3 && Value(ds) < 256
      && (|ds| < 3 && |next| > 0 ==> !(48 <= next[0] <= 57))
    case LineBreak(e) =>
      || e == [10, 13] || e == [13, 10]
      || (e == [10] && (|next| > 0 ==> next[0] != 13))
      || (e == [13] && (|next| > 0 ==> next[0] != 10))
    case Escaped(c) => c !in LETTERS && !(48 <= c <= 57) && c != 10 && c != 13
  }

  predicate Proper(ps: seq<Piece>, del: Byte, tail: Text) {
    |ps| > 0 ==> ProperPiece(ps[0], del, Write(ps[1..]) + tail) && Proper(ps[1..], del, tail)
  }

  // ---- Reading the pieces ----

  lemma EscapeLetters(c: Byte)
    ensures Escape(c).Some? <==> c in LETTERS
    ensures forall i :: 0 <= i < 7 ==> Escape(LETTERS[i]) == Some(7 + i)
  {
    if c in LETTERS {
      var i :| 0 <= i < |LETTERS| && LETTERS[i] == c;
    }
  }

  lemma DecimalValue(ds: seq<Digit>)
    requires 1 <= |ds| <= 3
    ensures Decimal(DigitText(ds)) == Value(ds)
  {
    var s := DigitText(ds);
    assert s[..1][..0] == [] && Decimal(s[..1][..0]) == 0;
    assert Decimal(s[..1]) == ds[0];
    if |ds| == 1 {
      assert s[..1] == s;
    } else {
      assert s[..2][..1] == s[..1];
      assert Decimal(s[..2]) == 10 * ds[0] as int + ds[1] as int;
      if |ds| == 2 {
        assert s[..2] == s;
      }
    }
  }

  /** The digits that are read are those of the piece. */
  lemma DigitsRead(ds: seq<Digit>, more: Text)
    requires 1 <= |ds| <= 3 && (|ds| < 3 && |more| > 0 ==> !(48 <= more[0] <= 57))
    ensures Digits(DigitText(ds) + more) == |ds| && (DigitText(ds) + more)[..|ds|] == DigitText(ds)
    ensures (DigitText(ds) + more)[|ds|..] == more && IsDigit((DigitText(ds) + more)[0])
  {
    var s := DigitText(ds) + more;
    assert forall i :: 0 <= i < |ds| ==> s[i] == 48 + ds[i] as int;
    assert |s| > |ds| ==> s[|ds|] == more[0];
  }

  /** One piece is read as its byte. */
  lemma PieceRead(p: Piece, more: Text, line: int, del: Byte)
    requires ProperPiece(p, del, more) && del != BACKSLASH && !IsNewline(del)
    ensures ReadLiteral(WritePiece(p) + more, line, del) ==
            if p.LineBreak? then
              if line + 1 >= 0x7FFF_FFFD then Err else Prepend(10, ReadLiteral(more, line + 1, del))
            else if 0 <= Meaning(p) < 256 then Prepend(Meaning(p), ReadLiteral(more, line, del)) else Err
  {
    hide Digits, Decimal, Escape, DigitText;
    var s := WritePiece(p) + more;
    EscapeLetters(if |s| > 1 then s[1] else 0);
    match p
    case Plain(c) => assert s[1..] == more;
    case Named(i) => assert s[2..] == more && s[1] == LETTERS[i];
    case Escaped(c) => assert s[2..] == more;
    case LineBreak(e) =>
      assert s[1..] == e + more;
      assert s[1..][NewlineSize(s[1..])..] == more && s[1 + NewlineSize(s[1..])..] == more;
    case Number(ds) => NumberRead(ds, more, line, del);
  }

  lemma NumberRead(ds: seq<Digit>, more: Text, line: int, del: Byte)
    requires ProperPiece(Number(ds), del, more) && del != BACKSLASH && !IsNewline(del)
    ensures ReadLiteral([92] + DigitText(ds) + more, line, del) == Prepend(Value(ds), ReadLiteral(more, line, del))
  {
    hide Digits, Decimal, DigitText;
    var s := [92] + DigitText(ds) + more;
    assert s[1..] == DigitText(ds) + more;
    DigitsRead(ds, more);
    DecimalValue(ds);
    assert s[1..1 + |ds|] == s[1..][..|ds|] && s[1 + |ds|..] == s[1..][|ds|..];
    assert s[1] == s[1..][0];
    assert Escape(s[1]).None?;
  }

  /** The lines of a literal do not run out. */
  predicate Fits(ps: seq<Piece>, line: int) { Breaks(ps) == 0 || line + Breaks(ps) < 0x7FFF_FFFD }

  /** Written pieces are read as what they stand for. */
  lemma {:induction false} LiteralRead(ps: seq<Piece>, del: Byte, rest: Text, line: int)
    requires Proper(ps, del, [del] + rest) && del != BACKSLASH && !IsNewline(del)
    ensures BytesOf(Meanings(ps)) && ReadLiteral(Write(ps) + [del] + rest, line, del) ==
            if Fits(ps, line) then Ok(Literal(Meanings(ps), rest, line + Breaks(ps))) else Err
    decreases |ps|
  {
    hide ReadLiteral, ProperPiece, Meaning, WritePiece;
    if |ps| == 0 {
      assert Write(ps) + [del] + rest == [del] + rest;
      ReadDelimiter(rest, line, del);
    } else {
      var more := Write(ps[1..]) + [del] + rest;
      assert Write(ps) + [del] + rest == WritePiece(ps[0]) + more;
      assert Write(ps[1..]) + ([del] + rest) == more;
      PieceByte(ps[0], del, more);
      PieceRead(ps[0], more, line, del);
      LiteralRead(ps[1..], del, rest, if ps[0].LineBreak? then line + 1 else line);
      PieceBreak(ps[0]);
    }
  }

  predicate BytesOf(ms: seq<int>) { forall i :: 0 <= i < |ms| ==> 0 <= ms[i] < 256 }

  lemma PieceBreak(p: Piece)
    ensures p.LineBreak? ==> Meaning(p) == 10
  {
  }

  lemma PieceByte(p: Piece, del: Byte, next: Text)
    requires ProperPiece(p, del, next)
    ensures 0 <= Meaning(p) < 256
  {
  }

  lemma ReadDelimiter(rest: Text, line: int, del: Byte)
    ensures ReadLiteral([del] + rest, line, del) == Ok(Literal([], rest, line))
  {
    assert ([del] + rest)[1..] == rest;
  }

  // ---- There are no other literals ----

  lemma NoBreak(e: Text, more: Text)
    requires |e| > 0 && |e| == NewlineSize(e + more) && IsNewline(e[0])
    ensures ProperPiece(LineBreak(e), 0, more)
  {
    var s := e + more;
    assert forall i :: 0 <= i < |e| ==> s[i] == e[i];
    assert |more| > 0 ==> s[|e|] == more[0];
    if |e| == 2 {
      assert e == [e[0], e[1]];
    } else {
      assert e == [e[0]];
    }
  }

  /** The digits of a decimal escape, as a piece. */
  lemma DigitsOf(s: Text) returns (ds: seq<Digit>)
    requires |s| > 0 && IsDigit(s[0])
    ensures var n := Digits(s); 1 <= n == |ds| && DigitText(ds) == s[..n] && Decimal(s[..n]) == Value(ds)
    ensures |ds| < 3 && |ds| < |s| ==> !(48 <= s[|ds|] <= 57)
  {
    var n := Digits(s);
    ds := seq(n, i requires 0 <= i < n => if 48 <= s[i] <= 57 then s[i] - 48 else 0);
    assert forall i :: 0 <= i < n ==> IsDigit(s[i]);
    assert DigitText(ds) == s[..n];
    DecimalValue(ds);
  }

  /** The first piece of a literal, and where the rest of it begins. */
  lemma FirstPiece(s: Text, line: int, del: Byte) returns (p: Piece, more: Text)
    requires |s| > 0 && s[0] != del && del != BACKSLASH && !IsNewline(del) && ReadLiteral(s, line, del).Ok?
    ensures s == WritePiece(p) + more && ProperPiece(p, del, more) && |more| < |s|
  {
    hide Digits, Decimal, Escape, DigitText;
    if s[0] != BACKSLASH {
      p, more := Plain(s[0]), s[1..];
    } else {
      EscapeLetters(s[1]);
      if Escape(s[1]).Some? {
        var i :| 0 <= i < |LETTERS| && LETTERS[i] == s[1];
        p, more := Named(i), s[2..];
      } else if IsNewline(s[1]) {
        var k := NewlineSize(s[1..]);
        p, more := LineBreak(s[1..1 + k]), s[1 + k..];
        assert s[1..1 + k] + s[1 + k..] == s[1..];
        NoBreak(s[1..1 + k], more);
      } else if IsDigit(s[1]) {
        var ds := DigitsOf(s[1..]);
        p, more := Number(ds), s[1 + |ds|..];
        assert s[1..][..|ds|] == s[1..1 + |ds|];
        assert |ds| < |s[1..]| ==> s[1..][|ds|] == more[0];
      } else {
        p, more := Escaped(s[1]), s[2..];
      }
    }
  }

  /** Every literal that is read consists of such pieces, and is read as what they stand for. */
  lemma {:induction false} LiteralPieces(s: Text, line: int, del: Byte) returns (ps: seq<Piece>)
    requires ReadLiteral(s, line, del).Ok? && del != BACKSLASH && !IsNewline(del)
    ensures var l := ReadLiteral(s, line, del).value;
            && s == Write(ps) + [del] + l.rest && Proper(ps, del, [del] + l.rest)
            && l.chars == Meanings(ps) && l.line == line + Breaks(ps) && Fits(ps, line)
    decreases |s|
  {
    hide ReadLiteral, ProperPiece, Meaning, WritePiece, MAX_INT;
    if |s| > 0 && s[0] == del {
      ps := [];
      assert s == [del] + s[1..];
      ReadDelimiter(s[1..], line, del);
    } else {
      NotEmpty(line, del);
      var p, more := FirstPiece(s, line, del);
      PieceRead(p, more, line, del);
      PieceByte(p, del, more);
      var line' := if p.LineBreak? then line + 1 else line;
      var qs := LiteralPieces(more, line', del);
      PieceBreak(p);
      ps := [p] + qs;
      var l := ReadLiteral(s, line, del).value;
      assert ps[1..] == qs && Write(ps) == WritePiece(p) + Write(qs);
      assert s == Write(ps) + [del] + l.rest;
      assert Write(qs) + ([del] + l.rest) == more;
    }
  }

  lemma NotEmpty(line: int, del: Byte)
    ensures ReadLiteral([], line, del).Err?
  {
  }

  /** String literals, exactly. */
  lemma LiteralIff(s: Text, line: int, del: Byte, l: Literal)
    requires del != BACKSLASH && !IsNewline(del)
    ensures ReadLiteral(s, line, del) == Ok(l) <==>
            exists ps :: s == Write(ps) + [del] + l.rest && Proper(ps, del, [del] + l.rest)
                         && l.chars == Meanings(ps) && l.line == line + Breaks(ps) && Fits(ps, line)
  {
    hide ReadLiteral, Write, Proper, Meanings, Breaks, Fits;
    if ReadLiteral(s, line, del) == Ok(l) {
      var ps := LiteralPieces(s, line, del);
    }
    if ps :| s == Write(ps) + [del] + l.rest && Proper(ps, del, [del] + l.rest)
             && l.chars == Meanings(ps) && l.line == line + Breaks(ps) && Fits(ps, line) {
      LiteralRead(ps, del, l.rest, line);
    }
  }

  // ---- Writing any bytes ----

  /** The bytes 7 to 13 by their letters, the others by three digits. */
  function Encode(s: Text): seq<Piece> {
    if |s| == 0 then []
    else [if 7 <= s[0] <= 13 then Named(s[0] - 7) else Number([s[0] / 100, s[0] / 10 % 10, s[0] % 10])] + Encode(s[1..])
  }

  lemma {:induction false} EncodeMeans(s: Text, del: Byte, tail: Text)
    ensures Proper(Encode(s), del, tail) && Meanings(Encode(s)) == s && Breaks(Encode(s)) == 0
  {
    if |s| > 0 {
      EncodeMeans(s[1..], del, tail);
      assert Encode(s)[1..] == Encode(s[1..]);
      assert s[0] == 100 * (s[0] / 100) + 10 * (s[0] / 10 % 10) + s[0] % 10;
    }
  }

  /** Whatever the bytes, their escapes are read as those bytes. */
  method ReadEncoded(s: Text, del: Byte, rest: Text) returns (r: Result<Text>)
    requires del != BACKSLASH && !IsNewline(del)
    ensures r == Ok(s)
  {
    hide ReadLiteral, Encode, Write;
    var q := Write(Encode(s)) + [del] + rest;
    var ls := new LexState([del] + q);
    assert ([del] + q)[1..] == q;
    EncodeMeans(s, del, [del] + rest);
    LiteralRead(Encode(s), del, rest, 1);
    assert ls.Ahead()[0] == del;
    r := ls.ReadString(del);
  }
}
