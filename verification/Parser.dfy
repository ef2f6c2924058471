/** The expression parser of lparser.c: precedence climbing on a token stream. */
module Parser {
  import opened Base
  import opened Syntax

  class LexState {
    const tokens: seq<Token>
    var pos: nat                        // of the current token

    constructor (tokens: seq<Token>)
      ensures this.tokens == tokens && pos == 0
    {
      this.tokens, pos := tokens, 0;
    }

    ghost predicate Valid()
      reads this
    {
      pos <= |tokens|
    }

    /** The tokens not yet consumed. */
    ghost function Rest(): seq<Token>
      requires Valid()
      reads this
    {
      tokens[pos..]
    }

    /** The current token; past the last one, a token that no expression contains. */
    function Current(): Token
      reads this
    {
      if pos < |tokens| then tokens[pos] else TOther(0)
    }

    /** luaX_next. */
    method Next()
      requires Valid() && pos < |tokens|
      modifies this
      ensures Valid() && Rest() == old(Rest())[1..]
    {
      pos := pos + 1;
    }

    /** simpleexp: an atom, or an expression in parentheses (prefixexp). */
    method SimpleExp() returns (r: Result<Expr>)
      requires Valid() && GetUnOp(Current()).None?
      modifies this
      ensures Valid() && |Rest()| <= |old(Rest())|
      ensures r.Ok? ==>
                |Rest()| < |old(Rest())| && forall limit :: Parse(old(Rest()), limit) == Loop(r.value, Rest(), limit)
      ensures r.Err? ==> forall limit :: Parse(old(Rest()), limit).Err?
      decreases |Rest()|, 0
    {
      hide Left, Right, Loop;
      match Current()
      case TAtom(id) =>
        Next();
        return Ok(Atom(id));
      case TOpen =>
        Next();
        var e, _ :- SubExpr(0);
        if !Current().TClose? {                                  // check_match
          return Err;
        }
        Next();
        return Ok(Paren(e));
      case _ => return Err;
    }

    /** subexpr: returns the tree and the first operator it has not treated. */
    method SubExpr(limit: nat) returns (r: Result<Expr>, op: Option<BinOp>)
      requires Valid()
      modifies this
      ensures Valid() && |Rest()| <= |old(Rest())|
      ensures r.Ok? ==> Parse(old(Rest()), limit) == Ok((r.value, Rest())) && op == NextOp(Rest())
      ensures r.Err? ==> Parse(old(Rest()), limit).Err?
      decreases |Rest()|, 1
    {
      hide Left, Right;
      ghost var start := Rest();
      op := None;
      var v: Expr;
      var uop := GetUnOp(Current());
      if uop.Some? {
        Next();
        var x, _ :- SubExpr(UNARY_PRIORITY);
        v := Unary(uop.value, x);
      } else {
        v :- SimpleExp();
      }
      op := GetBinOp(Current());
      while op.Some? && Left(op.value) > limit
        invariant Valid() && |Rest()| < |start| && op == NextOp(Rest())
        invariant Parse(start, limit) == Loop(v, Rest(), limit)
        decreases |Rest()|
      {
        Next();
        var v2, nextop :- SubExpr(Right(op.value));
        v, op := Binary(op.value, v, v2), nextop;
      }
      return Ok(v), op;
    }
  }
}
