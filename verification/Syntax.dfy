/** Operator expressions: their tokens, priorities (lparser.c), and which trees respect the priorities. */
module Syntax {
  import opened Base

  datatype BinOp = ADD | SUB | MUL | DIV | MOD | POW | CONCAT | NE | EQ | LT | LE | GT | GE | AND | OR
  datatype UnOp = MINUS | NOT | LEN

  datatype Token =
    | TAtom(id: nat)         // a number, a string, a name, ...
    | TMinus                 // `-`, unary or binary
    | TUnary(u: UnOp)        // `not`, `#`
    | TBinary(b: BinOp)      // the other operators
    | TOpen | TClose
    | TOther(id: nat)        // anything that cannot continue an expression

  datatype Expr = Atom(id: nat) | Paren(e: Expr) | Unary(u: UnOp, e: Expr) | Binary(b: BinOp, left: Expr, right: Expr)

  /** The priority table. */
  function Left(b: BinOp): nat {
    match b
    case ADD => 6 case SUB => 6
    case MUL => 7 case DIV => 7 case MOD => 7
    case POW => 10
    case CONCAT => 5
    case NE => 3 case EQ => 3
    case LT => 3 case LE => 3 case GT => 3 case GE => 3
    case AND => 2
    case OR => 1
  }

  function Right(b: BinOp): nat {
    match b
    case POW => 9
    case CONCAT => 4
    case _ => Left(b)
  }

  const UNARY_PRIORITY: nat := 8

  /** getunopr. */
  function GetUnOp(t: Token): Option<UnOp> {
    match t
    case TMinus => Some(MINUS)
    case TUnary(u) => if u.MINUS? then None else Some(u)
    case _ => None
  }

  /** getbinopr. */
  function GetBinOp(t: Token): Option<BinOp> {
    match t
    case TMinus => Some(SUB)
    case TBinary(b) => if b.SUB? then None else Some(b)
    case _ => None
  }

  function UnToken(u: UnOp): (t: Token)
    ensures GetUnOp(t) == Some(u)
  {
    if u.MINUS? then TMinus else TUnary(u)
  }

  function BinToken(b: BinOp): (t: Token)
    ensures GetBinOp(t) == Some(b)
  {
    if b.SUB? then TMinus else TBinary(b)
  }

  /** The tokens of a tree. */
  function Flatten(e: Expr): (ts: seq<Token>)
    ensures |ts| > 0
  {
    match e
    case Atom(id) => [TAtom(id)]
    case Paren(x) => [TOpen] + Flatten(x) + [TClose]
    case Unary(u, x) => [UnToken(u)] + Flatten(x)
    case Binary(b, l, r) => Flatten(l) + [BinToken(b)] + Flatten(r)
  }

  /** An operator with left priority k right after the tree would not become part of it. */
  predicate EndsBefore(e: Expr, k: nat) {
    match e
    case Atom(_) => true
    case Paren(_) => true
    case Unary(_, x) => k <= UNARY_PRIORITY && EndsBefore(x, k)
    case Binary(b, _, r) => k <= Right(b) && EndsBefore(r, k)
  }

  /** All operators at the left edge bind more tightly than the limit. */
  predicate StartsAbove(e: Expr, limit: nat) {
    match e
    case Binary(b, l, _) => Left(b) > limit && StartsAbove(l, limit)
    case _ => true
  }

  /** The tree respects the priorities of its operators. */
  predicate Canonical(e: Expr) {
    match e
    case Atom(_) => true
    case Paren(x) => Canonical(x)
    case Unary(_, x) => Canonical(x) && StartsAbove(x, UNARY_PRIORITY)
    case Binary(b, l, r) => Canonical(l) && Canonical(r) && EndsBefore(l, Left(b)) && StartsAbove(r, Right(b))
  }

  /** The operator with which the tokens begin. */
  function NextOp(ts: seq<Token>): Option<BinOp> { if |ts| == 0 then None else GetBinOp(ts[0]) }

  // ---- Parsing, as a function on the remaining tokens ----

  function Parse(ts: seq<Token>, limit: nat): (r: Result<(Expr, seq<Token>)>)
    ensures r.Ok? ==> |r.value.1| < |ts|
    decreases |ts|, 0
  {
    if |ts| == 0 then Err
    else
      match GetUnOp(ts[0])
      case Some(u) =>
        var (x, rest) :- Parse(ts[1..], UNARY_PRIORITY);
        Loop(Unary(u, x), rest, limit)
      case None =>
        match ts[0]
        case TAtom(id) => Loop(Atom(id), ts[1..], limit)
        case TOpen =>
          var (x, rest) :- Parse(ts[1..], 0);
          if |rest| > 0 && rest[0].TClose? then Loop(Paren(x), rest[1..], limit) else Err
        case _ => Err
  }

  /** What follows the operand e: operators that bind more tightly than the limit. */
  function Loop(e: Expr, ts: seq<Token>, limit: nat): (r: Result<(Expr, seq<Token>)>)
    ensures r.Ok? ==> |r.value.1| <= |ts|
    decreases |ts|, 1
  {
    match NextOp(ts)
    case Some(b) =>
      if Left(b) > limit then
        var (x, rest) :- Parse(ts[1..], Right(b));
        Loop(Binary(b, e, x), rest, limit)
      else Ok((e, ts))
    case None => Ok((e, ts))
  }

  // ---- Every parse respects the priorities and yields the tokens read ----

  /** The next operator is left to the caller. */
  predicate Leaves(rest: seq<Token>, limit: nat) { NextOp(rest).Some? ==> Left(NextOp(rest).value) <= limit }

  /** The next operator is not part of the tree. */
  predicate Stops(e: Expr, rest: seq<Token>) { NextOp(rest).Some? ==> EndsBefore(e, Left(NextOp(rest).value)) }

  /** Tokens and operators determine each other. */
  lemma TokenOfOp(t: Token)
    ensures GetUnOp(t).Some? ==> UnToken(GetUnOp(t).value) == t
    ensures GetBinOp(t).Some? ==> BinToken(GetBinOp(t).value) == t
  {
  }

  lemma {:induction false} AboveZero(e: Expr)
    ensures StartsAbove(e, 0)
  {
    match e
    case Binary(b, l, _) => AboveZero(l);
    case _ =>
  }

  /** What a parse that ends with the tree e and leaves rest has done. */
  ghost predicate Parsed(e: Expr, rest: seq<Token>, limit: nat) {
    Canonical(e) && StartsAbove(e, limit) && Leaves(rest, limit) && Stops(e, rest)
  }

  lemma {:induction false} ParseSound(ts: seq<Token>, limit: nat)
    requires Parse(ts, limit).Ok?
    ensures var (e, rest) := Parse(ts, limit).value; ts == Flatten(e) + rest && Parsed(e, rest, limit)
    decreases |ts|, 0
  {
    hide Left, Right, GetUnOp, GetBinOp, UnToken, BinToken, Loop;
    TokenOfOp(ts[0]);
    match GetUnOp(ts[0])
    case Some(u) =>
      ParseSound(ts[1..], UNARY_PRIORITY);
      var (x, rest) := Parse(ts[1..], UNARY_PRIORITY).value;
      LoopSound(Unary(u, x), rest, limit);
      assert ts == Flatten(Unary(u, x)) + rest;
    case None =>
      match ts[0]
      case TAtom(id) =>
        LoopSound(Atom(id), ts[1..], limit);
        assert ts == Flatten(Atom(id)) + ts[1..];
      case TOpen =>
        ParseSound(ts[1..], 0);
        var (x, rest) := Parse(ts[1..], 0).value;
        LoopSound(Paren(x), rest[1..], limit);
        assert ts == Flatten(Paren(x)) + rest[1..];
  }

  lemma {:induction false} LoopSound(e: Expr, ts: seq<Token>, limit: nat)
    requires Loop(e, ts, limit).Ok? && Canonical(e) && StartsAbove(e, limit) && Stops(e, ts)
    ensures var (e', rest) := Loop(e, ts, limit).value; Flatten(e) + ts == Flatten(e') + rest && Parsed(e', rest, limit)
    decreases |ts|, 1
  {
    hide Left, Right, GetUnOp, GetBinOp, UnToken, BinToken, Parse;
    if NextOp(ts).Some? && Left(NextOp(ts).value) > limit {
      TokenOfOp(ts[0]);
      var b := NextOp(ts).value;
      ParseSound(ts[1..], Right(b));
      var (x, rest) := Parse(ts[1..], Right(b)).value;
      assert Flatten(e) + ts == Flatten(Binary(b, e, x)) + rest;
      LoopSound(Binary(b, e, x), rest, limit);
    }
  }

  // ---- Every tree that respects the priorities is parsed from its tokens ----

  lemma {:induction false} ParseComplete(e: Expr, rest: seq<Token>, limit: nat)
    requires Canonical(e) && StartsAbove(e, limit) && Stops(e, rest)
    ensures Parse(Flatten(e) + rest, limit) == Loop(e, rest, limit)
  {
    hide Left, Right, GetBinOp, BinToken, Loop, Parse;
    var ts := Flatten(e) + rest;
    match e
    case Atom(id) =>
      assert ts == [TAtom(id)] + rest;
      ParseAtom(id, rest, limit);
    case Paren(x) =>
      var more := [TClose] + rest;
      assert ts == [TOpen] + (Flatten(x) + more);
      AboveZero(x);
      CloseStops(x, rest);
      ParseComplete(x, more, 0);
      ParseParen(x, Flatten(x) + more, rest, limit);
    case Unary(u, x) =>
      assert ts == [UnToken(u)] + (Flatten(x) + rest);
      ParseComplete(x, rest, UNARY_PRIORITY);
      LoopLeaves(x, rest, UNARY_PRIORITY);
      ParseUnary(u, x, Flatten(x) + rest, rest, limit);
    case Binary(b, l, r) =>
      var more := [BinToken(b)] + (Flatten(r) + rest);
      assert ts == Flatten(l) + more;
      NextBinary(b, Flatten(r) + rest);
      ParseComplete(l, more, limit);
      ParseComplete(r, rest, Right(b));
      LoopLeaves(r, rest, Right(b));
      LoopBinary(b, l, r, Flatten(r) + rest, rest, limit);
  }

  lemma ParseAtom(id: nat, rest: seq<Token>, limit: nat)
    ensures Parse([TAtom(id)] + rest, limit) == Loop(Atom(id), rest, limit)
  {
    assert ([TAtom(id)] + rest)[1..] == rest;
  }

  lemma CloseStops(x: Expr, rest: seq<Token>)
    ensures Stops(x, [TClose] + rest) && Loop(x, [TClose] + rest, 0) == Ok((x, [TClose] + rest))
  {
  }

  lemma ParseParen(x: Expr, inner: seq<Token>, rest: seq<Token>, limit: nat)
    requires Parse(inner, 0) == Ok((x, [TClose] + rest))
    ensures Parse([TOpen] + inner, limit) == Loop(Paren(x), rest, limit)
  {
    assert ([TOpen] + inner)[1..] == inner && ([TClose] + rest)[1..] == rest;
  }

  lemma ParseUnary(u: UnOp, x: Expr, inner: seq<Token>, rest: seq<Token>, limit: nat)
    requires Parse(inner, UNARY_PRIORITY) == Ok((x, rest))
    ensures Parse([UnToken(u)] + inner, limit) == Loop(Unary(u, x), rest, limit)
  {
    assert ([UnToken(u)] + inner)[1..] == inner;
  }

  lemma LoopBinary(b: BinOp, l: Expr, r: Expr, inner: seq<Token>, rest: seq<Token>, limit: nat)
    requires Parse(inner, Right(b)) == Ok((r, rest)) && Left(b) > limit
    ensures Loop(l, [BinToken(b)] + inner, limit) == Loop(Binary(b, l, r), rest, limit)
  {
    hide Left, Right;
    assert ([BinToken(b)] + inner)[1..] == inner;
  }

  lemma NextBinary(b: BinOp, inner: seq<Token>)
    ensures NextOp([BinToken(b)] + inner) == Some(b)
  {
  }

  lemma LoopLeaves(e: Expr, rest: seq<Token>, limit: nat)
    requires Leaves(rest, limit)
    ensures Loop(e, rest, limit) == Ok((e, rest))
  {
    hide Left, Right;
  }

  /** Parsing, exactly: the one way to read a tree that respects the priorities and stops where it must. */
  lemma ParseIff(ts: seq<Token>, limit: nat, e: Expr, rest: seq<Token>)
    ensures Parse(ts, limit) == Ok((e, rest)) <==> ts == Flatten(e) + rest && Parsed(e, rest, limit)
  {
    hide Parse, Loop, Canonical, StartsAbove, Flatten, Leaves, Stops, Left;
    if Parse(ts, limit) == Ok((e, rest)) {
      ParseSound(ts, limit);
    }
    if ts == Flatten(e) + rest && Parsed(e, rest, limit) {
      ParseComplete(e, rest, limit);
      LoopLeaves(e, rest, limit);
    }
  }

  /** Two trees that respect the priorities and read the same are the same. */
  lemma UniqueTree(e: Expr, e': Expr)
    requires Canonical(e) && Canonical(e') && Flatten(e) == Flatten(e')
    ensures e == e'
  {
    hide Parse, Loop, Canonical, StartsAbove, Flatten;
    assert Flatten(e) + [] == Flatten(e) && Flatten(e') + [] == Flatten(e');
    AboveZero(e);
    AboveZero(e');
    ParseIff(Flatten(e), 0, e, []);
    ParseIff(Flatten(e), 0, e', []);
  }

  // ---- Printing with as few parentheses as possible ----

  /** The tree without its parentheses. */
  function Erase(e: Expr): Expr {
    match e
    case Atom(_) => e
    case Paren(x) => Erase(x)
    case Unary(u, x) => Unary(u, Erase(x))
    case Binary(b, l, r) => Binary(b, Erase(l), Erase(r))
  }

  function Parens(e: Expr): nat {
    match e
    case Atom(_) => 0
    case Paren(x) => 1 + Parens(x)
    case Unary(_, x) => Parens(x)
    case Binary(_, l, r) => Parens(l) + Parens(r)
  }

  function Wrap(e: Expr, needed: bool): Expr { if needed then Paren(e) else e }

  /** Parentheses only around operands that would be read differently without. */
  function Print(e: Expr): Expr {
    match e
    case Atom(_) => e
    case Paren(x) => Print(x)
    case Unary(u, x) => var x' := Print(x); Unary(u, Wrap(x', !StartsAbove(x', UNARY_PRIORITY)))
    case Binary(b, l, r) =>
      var (l', r') := (Print(l), Print(r));
      Binary(b, Wrap(l', !EndsBefore(l', Left(b))), Wrap(r', !StartsAbove(r', Right(b))))
  }

  lemma {:induction false} PrintCanonical(e: Expr)
    ensures Canonical(Print(e)) && Erase(Print(e)) == Erase(e)
  {
    hide Left, Right;
    match e
    case Atom(_) =>
    case Paren(x) => PrintCanonical(x);
    case Unary(u, x) => PrintCanonical(x);
    case Binary(b, l, r) =>
      PrintCanonical(l);
      PrintCanonical(r);
  }

  /** Printing and parsing undo each other. */
  lemma RoundTrip(e: Expr)
    ensures Parse(Flatten(Print(e)), 0) == Ok((Print(e), [])) && Erase(Print(e)) == Erase(e)
  {
    hide Parse, Loop, Canonical, StartsAbove, Flatten, Print, Erase;
    PrintCanonical(e);
    AboveZero(Print(e));
    assert Flatten(Print(e)) + [] == Flatten(Print(e));
    ParseIff(Flatten(Print(e)), 0, Print(e), []);
  }

  // ---- No tree with the same operators needs fewer parentheses ----

  /** In a tree that respects the priorities only the topmost operator decides what may stand beside it. */
  lemma {:induction false} TopDecidesEnd(e: Expr, b: BinOp)
    requires Canonical(e)
    ensures EndsBefore(e, Left(b)) <==>
            match e case Unary(_, _) => Left(b) <= UNARY_PRIORITY case Binary(c, _,
                _) => Left(b) <= Right(c) case _ => true
  {
    match e
    case Atom(_) =>
    case Paren(_) =>
    case Unary(_, x) => TopDecidesEnd(x, b);
    case Binary(_, _, r) => TopDecidesEnd(r, b);
  }

  lemma {:induction false} TopDecidesStart(e: Expr, limit: nat)
    requires Canonical(e)
    ensures StartsAbove(e, limit) <==> (e.Binary? ==> Left(e.b) > limit)
  {
    match e
    case Binary(b, l, _) =>
      TopDecidesStart(l, limit);
      TopDecidesEnd(l, b);
    case _ =>
  }

  /** Below its outer parentheses, a tree has the same topmost operator as its printed form. */
  function Bare(e: Expr): Expr { if e.Paren? then Bare(e.e) else e }

  lemma {:induction false} Minimal(c: Expr)
    requires Canonical(c)
    ensures Parens(Print(c)) + (if c.Paren? then 1 else 0) <= Parens(c)
    ensures var p := Print(c);
            match Bare(c)
            case Atom(id) => p == Atom(id)
            case Unary(u, _) => p.Unary? && p.u == u
            case Binary(b, _, _) => p.Binary? && p.b == b
            case Paren(_) => false
  {
    hide Left, Right, EndsBefore, StartsAbove;
    match c
    case Atom(_) =>
    case Paren(x) => Minimal(x);
    case Unary(u, x) =>
      Minimal(x);
      PrintCanonical(x);
      TopDecidesStart(x, UNARY_PRIORITY);
      TopDecidesStart(Print(x), UNARY_PRIORITY);
    case Binary(b, l, r) =>
      Minimal(l);
      Minimal(r);
      PrintCanonical(l);
      PrintCanonical(r);
      TopDecidesEnd(l, b);
      TopDecidesEnd(Print(l), b);
      TopDecidesStart(r, Right(b));
      TopDecidesStart(Print(r), Right(b));
  }

  lemma {:induction false} PrintErased(e: Expr)
    ensures Print(Erase(e)) == Print(e)
  {
    match e
    case Atom(_) =>
    case Paren(x) => PrintErased(x);
    case Unary(_, x) => PrintErased(x);
    case Binary(_, l, r) =>
      PrintErased(l);
      PrintErased(r);
  }

  /** The printer uses the fewest parentheses with which the tree can be written at all. */
  lemma FewestParens(e: Expr, c: Expr)
    requires Canonical(c) && Erase(c) == Erase(e)
    ensures Parens(Print(e)) <= Parens(c)
  {
    Minimal(c);
    PrintErased(c);
    PrintErased(e);
  }
}
