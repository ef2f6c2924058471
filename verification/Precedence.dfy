/** The precedence of the operators as the reference manual lists it, against the priorities of the parser. */
module Precedence {
  import opened Base
  import opened Syntax

  // ---- The list of the manual ----

  /** The binary operators by level, from the lowest; the unary operators stand above the sixth level. */
  const LEVELS: seq<set<BinOp>> :=
    [{OR}, {AND}, {LT, GT, LE, GE, NE, EQ}, {CONCAT}, {ADD, SUB}, {MUL, DIV, MOD}, {}, {POW}]

  const UNARY_LEVEL: nat := 6

  /** Concatenation and exponentiation group to the right. */
  const RIGHT_GROUPING: set<BinOp> := {CONCAT, POW}

  /** The level on which an operator stands. */
  function Level(b: BinOp): (n: nat)
    ensures n < |LEVELS|
  {
    if b in LEVELS[0] then 0
    else if b in LEVELS[1] then 1
    else if b in LEVELS[2] then 2
    else if b in LEVELS[3] then 3
    else if b in LEVELS[4] then 4
    else if b in LEVELS[5] then 5
    else 7
  }

  /** The number of each level. */
  lemma LevelTable(b: BinOp)
    ensures b in LEVELS[Level(b)]
    ensures Level(b) == match b
                        case OR => 0
                        case AND => 1
                        case LT => 2 case GT => 2 case LE => 2 case GE => 2 case NE => 2 case EQ => 2
                        case CONCAT => 3
                        case ADD => 4 case SUB => 4
                        case MUL => 5 case DIV => 5 case MOD => 5
                        case POW => 7
  {
  }

  /**
   The tree can be derived from the nonterminal of level n.  An operator takes operands of its own level on the
   side to which it groups, and of higher levels on the other; the right operand of `^` may begin with a unary one.
   */
  predicate Derives(e: Expr, n: nat) {
    match e
    case Atom(_) => true
    case Paren(x) => Derives(x, 0)
    case Unary(_, x) => n <= UNARY_LEVEL && Derives(x, UNARY_LEVEL)
    case Binary(b, l, r) =>
      && n <= Level(b)
      && Derives(l, if b in RIGHT_GROUPING then Level(b) + 1 else Level(b))
      && Derives(r, if b == POW then UNARY_LEVEL else if b in RIGHT_GROUPING then Level(b) else Level(b) + 1)
  }

  // ---- The priorities give these levels ----

  /** What the table of priorities says of two operators, one after the other. */
  lemma PriorityOrder(b: BinOp, c: BinOp)
    ensures Left(c) <= Right(b) <==> Level(c) < Level(b) || (Level(c) == Level(b) && b !in RIGHT_GROUPING)
    ensures Left(c) <= UNARY_PRIORITY <==> Level(c) < UNARY_LEVEL
    ensures UNARY_LEVEL < Level(c) <==> c == POW
    ensures Level(c) != UNARY_LEVEL
  {
    LevelTable(b);
    LevelTable(c);
  }

  /** Below its level nothing but the topmost operator matters. */
  lemma DerivesAt(e: Expr, n: nat)
    ensures Derives(e, n) <==>
            Derives(e, 0)
                && match e case Unary(_, _) => n <= UNARY_LEVEL case Binary(b, _, _) => n <= Level(b) case _ => true
  {
  }

  /** The trees that the parser builds are exactly those of the grammar. */
  lemma {:induction false} CanonicalIffDerives(e: Expr)
    ensures Canonical(e) <==> Derives(e, 0)
  {
    hide Level, Left, Right;
    match e
    case Atom(_) =>
    case Paren(x) => CanonicalIffDerives(x);
    case Unary(u, x) =>
      CanonicalIffDerives(x);
      DerivesAt(x, UNARY_LEVEL);
      if Canonical(x) {
        TopDecidesStart(x, UNARY_PRIORITY);
        if x.Binary? {
          PriorityOrder(x.b, x.b);
        }
      }
    case Binary(b, l, r) =>
      CanonicalIffDerives(l);
      CanonicalIffDerives(r);
      if Canonical(l) && Canonical(r) {
        LeftOperand(b, l);
        RightOperand(b, r);
      }
  }

  lemma LeftOperand(b: BinOp, l: Expr)
    requires Canonical(l) && Derives(l, 0)
    ensures EndsBefore(l, Left(b)) <==> Derives(l, if b in RIGHT_GROUPING then Level(b) + 1 else Level(b))
  {
    hide Level, Left, Right, EndsBefore, Derives;
    DerivesAt(l, if b in RIGHT_GROUPING then Level(b) + 1 else Level(b));
    TopDecidesEnd(l, b);
    PriorityOrder(b, b);
    if l.Binary? {
      PriorityOrder(l.b, b);
      if Level(l.b) == Level(b) {
        SameLevel(l.b, b);
      }
    }
  }

  lemma RightOperand(b: BinOp, r: Expr)
    requires Canonical(r) && Derives(r, 0)
    ensures StartsAbove(r, Right(b)) <==>
            Derives(r, if b == POW then UNARY_LEVEL else if b in RIGHT_GROUPING then Level(b) else Level(b) + 1)
  {
    hide Level, Left, Right, StartsAbove, Derives;
    DerivesAt(r, if b == POW then UNARY_LEVEL else if b in RIGHT_GROUPING then Level(b) else Level(b) + 1);
    TopDecidesStart(r, Right(b));
    PriorityOrder(b, b);
    if r.Binary? {
      PriorityOrder(b, r.b);
      PriorityOrder(r.b, r.b);
      if Level(b) == Level(r.b) {
        SameLevel(b, r.b);
      }
    }
  }

  /** Operators of one level group to the same side. */
  lemma SameLevel(b: BinOp, c: BinOp)
    requires Level(b) == Level(c)
    ensures b in RIGHT_GROUPING <==> c in RIGHT_GROUPING
  {
    LevelTable(b);
    LevelTable(c);
  }

  /** Parsing, by the list of the manual: the tree is the one of the grammar, and what is left does not belong to it. */
  lemma ParseByLevels(ts: seq<Token>, e: Expr)
    ensures Parse(ts, 0) == Ok((e, [])) <==> ts == Flatten(e) && Derives(e, 0)
  {
    hide Parse, Canonical, Derives, Flatten, StartsAbove;
    CanonicalIffDerives(e);
    AboveZero(e);
    ParseIff(ts, 0, e, []);
    assert Flatten(e) + [] == Flatten(e);
  }

  // ---- Grouping, token by token ----

  /** b takes the operand between b and c. */
  predicate TakesFirst(b: BinOp, c: BinOp) {
    Level(b) > Level(c) || (Level(b) == Level(c) && b !in RIGHT_GROUPING)
  }

  lemma FlattenParts(b: BinOp, u: UnOp, l: Expr, r: Expr, x: nat)
    ensures Flatten(Binary(b, l, r)) == Flatten(l) + [BinToken(b)] + Flatten(r)
    ensures Flatten(Unary(u, l)) == [UnToken(u)] + Flatten(l)
    ensures Flatten(Atom(x)) == [TAtom(x)]
  {
  }

  /** A tree of two operators. */
  lemma DerivesTwo(b: BinOp, l: Expr, r: Expr, n: nat)
    ensures Derives(Binary(b, l, r), n) <==>
            && n <= Level(b)
            && Derives(l, if b in RIGHT_GROUPING then Level(b) + 1 else Level(b))
            && Derives(r, if b == POW then UNARY_LEVEL else if b in RIGHT_GROUPING then Level(b) else Level(b) + 1)
    ensures forall u :: Derives(Unary(u, l), n) <==> n <= UNARY_LEVEL && Derives(l, UNARY_LEVEL)
  {
    hide Level;
  }

  /** Two binary operators. */
  lemma GroupsBinary(x: nat, y: nat, z: nat, b: BinOp, c: BinOp)
    ensures Parse([TAtom(x), BinToken(b), TAtom(y), BinToken(c), TAtom(z)], 0) ==
            Ok((if TakesFirst(b, c) then Binary(c, Binary(b, Atom(x), Atom(y)), Atom(z))
                else Binary(b, Atom(x), Binary(c, Atom(y), Atom(z))), []))
  {
    hide Level, Parse, BinToken, Flatten;
    var first := Binary(c, Binary(b, Atom(x), Atom(y)), Atom(z));
    var second := Binary(b, Atom(x), Binary(c, Atom(y), Atom(z)));
    var ts := [TAtom(x), BinToken(b), TAtom(y), BinToken(c), TAtom(z)];
    FlattenParts(b, NOT, Atom(x), Atom(y), x);
    FlattenParts(c, NOT, Atom(y), Atom(z), y);
    FlattenParts(c, NOT, Binary(b, Atom(x), Atom(y)), Atom(z), z);
    FlattenParts(b, NOT, Atom(x), Binary(c, Atom(y), Atom(z)), z);
    assert Flatten(first) == ts && Flatten(second) == ts;
    PriorityOrder(b, b);
    PriorityOrder(c, c);
    PriorityOrder(b, c);
    if Level(b) == Level(c) {
      SameLevel(b, c);
    }
    DerivesTwo(b, Atom(x), Atom(y), if c in RIGHT_GROUPING then Level(c) + 1 else Level(c));
    DerivesTwo(c, Binary(b, Atom(x), Atom(y)), Atom(z), 0);
    assert Derives(first, 0) <==> TakesFirst(b, c);
    DerivesTwo(c, Atom(y), Atom(z),
               if b == POW then UNARY_LEVEL else if b in RIGHT_GROUPING then Level(b) else Level(b) + 1);
    DerivesTwo(b, Atom(x), Binary(c, Atom(y), Atom(z)), 0);
    assert Derives(second, 0) <==> !TakesFirst(b, c);
    ParseByLevels(ts, first);
    ParseByLevels(ts, second);
  }

  /** A unary operator before a binary one takes the operand, unless the binary one is `^`. */
  lemma GroupsUnaryFirst(u: UnOp, x: nat, y: nat, b: BinOp)
    ensures Parse([UnToken(u), TAtom(x), BinToken(b), TAtom(y)], 0) ==
            Ok((if b == POW then Unary(u, Binary(b, Atom(x), Atom(y))) else Binary(b, Unary(u, Atom(x)), Atom(y)), []))
  {
    hide Level, Parse, BinToken, UnToken, Flatten;
    var whole, part := Unary(u, Binary(b, Atom(x), Atom(y))), Binary(b, Unary(u, Atom(x)), Atom(y));
    var ts := [UnToken(u), TAtom(x), BinToken(b), TAtom(y)];
    FlattenParts(b, u, Atom(x), Atom(y), x);
    FlattenParts(b, u, Binary(b, Atom(x), Atom(y)), Atom(y), y);
    FlattenParts(b, u, Unary(u, Atom(x)), Atom(y), y);
    assert Flatten(whole) == ts && Flatten(part) == ts;
    PriorityOrder(b, b);
    LevelTable(b);
    DerivesTwo(b, Atom(x), Atom(y), UNARY_LEVEL);
    DerivesTwo(b, Binary(b, Atom(x), Atom(y)), Atom(y), 0);
    assert Derives(whole, 0) <==> b == POW;
    DerivesTwo(b, Atom(x), Atom(y), if b in RIGHT_GROUPING then Level(b) + 1 else Level(b));
    DerivesTwo(b, Unary(u, Atom(x)), Atom(y), 0);
    assert Derives(part, 0) <==> b != POW;
    ParseByLevels(ts, whole);
    ParseByLevels(ts, part);
  }

  /** A unary operator after a binary one belongs to the right operand; it takes what follows only before `^`. */
  lemma GroupsUnarySecond(x: nat, b: BinOp, u: UnOp, y: nat, c: BinOp, z: nat)
    ensures Parse([TAtom(x), BinToken(b), UnToken(u), TAtom(y)], 0) == Ok((Binary(b, Atom(x), Unary(u, Atom(y))), []))
    ensures Parse([TAtom(x), BinToken(b), UnToken(u), TAtom(y), BinToken(c), TAtom(z)], 0) ==
            Ok((if c == POW then Binary(b, Atom(x), Unary(u, Binary(c, Atom(y), Atom(z))))
                else if TakesFirst(b, c) then Binary(c, Binary(b, Atom(x), Unary(u, Atom(y))), Atom(z))
                else Binary(b, Atom(x), Binary(c, Unary(u, Atom(y)), Atom(z))), []))
  {
    hide Level, Parse, BinToken, UnToken, Flatten;
    var short := [TAtom(x), BinToken(b), UnToken(u), TAtom(y)];
    var ts := [TAtom(x), BinToken(b), UnToken(u), TAtom(y), BinToken(c), TAtom(z)];
    var none := Binary(b, Atom(x), Unary(u, Atom(y)));
    var power := Binary(b, Atom(x), Unary(u, Binary(c, Atom(y), Atom(z))));
    var first := Binary(c, none, Atom(z));
    var second := Binary(b, Atom(x), Binary(c, Unary(u, Atom(y)), Atom(z)));
    FlattenParts(b, u, Atom(y), Atom(x), x);
    FlattenParts(c, u, Atom(y), Atom(z), y);
    FlattenParts(b, u, Atom(x), Unary(u, Atom(y)), z);
    FlattenParts(b, u, Binary(c, Atom(y), Atom(z)), Atom(x), x);
    FlattenParts(b, u, Atom(x), Unary(u, Binary(c, Atom(y), Atom(z))), x);
    FlattenParts(c, u, none, Atom(z), z);
    FlattenParts(c, u, Unary(u, Atom(y)), Atom(z), z);
    FlattenParts(b, u, Atom(x), Binary(c, Unary(u, Atom(y)), Atom(z)), x);
    assert Flatten(none) == short && Flatten(power) == ts && Flatten(first) == ts && Flatten(second) == ts;
    PriorityOrder(b, b);
    PriorityOrder(c, c);
    LevelTable(b);
    LevelTable(c);
    var right := if b == POW then UNARY_LEVEL else if b in RIGHT_GROUPING then Level(b) else Level(b) + 1;
    var left := if c in RIGHT_GROUPING then Level(c) + 1 else Level(c);
    DerivesTwo(b, Atom(y), Atom(y), right);
    DerivesTwo(b, Atom(x), Unary(u, Atom(y)), 0);
    DerivesTwo(b, Atom(x), Unary(u, Atom(y)), left);
    assert Derives(none, 0) && (Derives(none, left) <==> left <= Level(b));
    PriorityOrder(b, c);
    if Level(b) == Level(c) {
      SameLevel(b, c);
    }
    DerivesTwo(c, none, Atom(z), 0);
    assert Derives(first, 0) <==> TakesFirst(b, c) && c != POW;
    DerivesTwo(c, Atom(y), Atom(z), UNARY_LEVEL);
    DerivesTwo(b, Binary(c, Atom(y), Atom(z)), Atom(x), right);
    DerivesTwo(b, Atom(x), Unary(u, Binary(c, Atom(y), Atom(z))), 0);
    assert Derives(power, 0) <==> c == POW;
    DerivesTwo(c, Atom(y), Atom(y), left);
    DerivesTwo(c, Unary(u, Atom(y)), Atom(z), right);
    DerivesTwo(b, Atom(x), Binary(c, Unary(u, Atom(y)), Atom(z)), 0);
    assert Derives(second, 0) <==> !TakesFirst(b, c) && c != POW;
    ParseByLevels(short, none);
    ParseByLevels(ts, power);
    ParseByLevels(ts, first);
    ParseByLevels(ts, second);
  }
}
