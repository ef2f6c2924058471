/**
 * Source expressions built from `and`, `or`, `not`, comparisons and literals: what they mean, and how their code
 * leaves.
 */
module Logic {
  import opened Base
  import opened LuaVM

  datatype CompareOp = EQ | NE | LT | LE | GT | GE

  /** Constant(id) is a string or a number. */
  datatype Expr =
    | Local(reg: nat)
    | Upvalue(index: nat)
    | True
    | False
    | Constant(id: nat)
    | Negation(e: Expr)
    | And(left: Expr, right: Expr)
    | Or(left: Expr, right: Expr)
    | Compare(op: CompareOp, left: Expr, right: Expr)

  predicate Holds(env: Env, op: CompareOp, a: Value, b: Value) {
    match op
    case EQ => env.eq(a, b)
    case NE => !env.eq(a, b)
    case LT => env.lt(a, b)
    case LE => env.le(a, b)
    case GT => env.lt(b, a)
    case GE => env.le(b, a)
  }

  /** Short-circuit evaluation, as the reference manual describes it. */
  function Eval(env: Env, x: Expr, r: Regs): Value {
    match x
    case Local(reg) => Get(r, reg)
    case Upvalue(i) => env.upvals(i)
    case True => Bool(true)
    case False => Bool(false)
    case Constant(id) => Other(id)
    case Negation(e) => Bool(IsFalse(Eval(env, e, r)))
    case And(a, b) => if IsFalse(Eval(env, a, r)) then Eval(env, a, r) else Eval(env, b, r)
    case Or(a, b) => if IsFalse(Eval(env, a, r)) then Eval(env, b, r) else Eval(env, a, r)
    case Compare(op, a, b) => Bool(Holds(env, op, Eval(env, a, r), Eval(env, b, r)))
  }

  /** nil and false are false, and all other values are true; `and` and `or` give one of their operands. */
  lemma TruthTable(env: Env, x: Expr, y: Expr, r: Regs)
    ensures Eval(env, Negation(x), r) == Bool(Eval(env, x, r) in {Nil, Bool(false)})
    ensures Eval(env, And(x, y), r) == Eval(env, if Eval(env, x, r) in {Nil, Bool(false)} then x else y, r)
    ensures Eval(env, Or(x, y), r) == Eval(env, if Eval(env, x, r) in {Nil, Bool(false)} then y else x, r)
  {
    var v := Eval(env, x, r);
    assert v in {Nil, Bool(false)} <==> v == Nil || v == Bool(false);
  }

  /** The locals an expression names are active. */
  predicate Scoped(x: Expr, nactvar: nat) {
    match x
    case Local(reg) => reg < nactvar
    case Negation(e) => Scoped(e, nactvar)
    case And(a, b) => Scoped(a, nactvar) && Scoped(b, nactvar)
    case Or(a, b) => Scoped(a, nactvar) && Scoped(b, nactvar)
    case Compare(_, a, b) => Scoped(a, nactvar) && Scoped(b, nactvar)
    case _ => true
  }

  /** The first n registers hold the same values, except perhaps `dst`. */
  ghost predicate Agree(r: Regs, r': Regs, n: nat, dst: int) {
    forall i: nat :: i < n && i != dst ==> Get(r', i) == Get(r, i)
  }

  // ---- What the code of an expression is like ----

  /** The value of the last operand is a literal, for which no code has been emitted. */
  predicate IsLiteral(x: Expr) {
    match x
    case True => true
    case False => true
    case Constant(_) => true
    case Negation(e) => IsLiteral(e)
    case And(_, b) => IsLiteral(b)
    case Or(_, b) => IsLiteral(b)
    case _ => false
  }

  /** The last operand is a local variable. */
  predicate IsLocal(x: Expr) {
    match x
    case Local(_) => true
    case And(_, b) => IsLocal(b)
    case Or(_, b) => IsLocal(b)
    case _ => false
  }

  /** The test that decides the last operand carries no value: it is a comparison or a `not`. */
  predicate Plain(x: Expr) {
    match x
    case Negation(e) => !IsLiteral(e)
    case And(_, b) => Plain(b)
    case Or(_, b) => Plain(b)
    case Compare(_, _, _) => true
    case _ => false
  }

  /** The last operand, here with value v, is a literal that needs no test to go on, or not, if it is `truth`. */
  predicate Decided(x: Expr, v: Value, truth: bool) { IsLiteral(x) && (truth || v.Bool?) }

  /** The value of the literal. */
  function LiteralOf(x: Expr): Value {
    match x
    case True => Bool(true)
    case Constant(id) => Other(id)
    case Negation(e) => Bool(IsFalse(LiteralOf(e)))
    case And(_, b) => LiteralOf(b)
    case Or(_, b) => LiteralOf(b)
    case _ => Bool(false)
  }

  /** Going on if x is `truth` takes a jump, or a test and a jump. */
  predicate Jumps(x: Expr, truth: bool) {
    !(Decided(x, LiteralOf(x), truth) && IsFalse(LiteralOf(x)) != truth)
  }

  /** There are exits taken when the value is `side`. */
  predicate HasExits(x: Expr, side: bool) {
    match x
    case Negation(e) => HasExits(e, !side)
    case And(a, b) => HasExits(b, side) || (!side && (HasExits(a, false) || Jumps(a, true)))
    case Or(a, b) => HasExits(b, side) || (side && (HasExits(a, true) || Jumps(a, false)))
    case _ => false
  }

  /** As an operand of a comparison, x ends without an instruction for its value, and without exits. */
  predicate Quiet(x: Expr) { (IsLiteral(x) || IsLocal(x)) && !HasExits(x, true) && !HasExits(x, false) }

  // ---- How the code of an expression leaves ----

  /**
   * The code arrives at the end, with the value v still to be taken, or it leaves by an exit for true or for false.
   * A jump may carry a value: it is controlled by a TESTSET.  As long as no instruction stands for v, one arrives by
   * falling through or by a jump that waits for the next instruction; w is what that jump carries.
   */
  datatype How = At(w: Option<Value>, v: Value) | Out(truth: bool, carry: Option<Value>)

  /** The first operand of a connective: the code goes on, by a jump that carries w, or leaves. */
  datatype Going = On(w: Option<Value>) | Leave(carry: Option<Value>)

  /** luaK_goiftrue and luaK_goiffalse: a literal that does not go on takes over the jumps that waited for it. */
  function GoIf(x: Expr, how: How, truth: bool): Going {
    match how
    case Out(t, c) => if t == truth then On(c) else Leave(c)
    case At(w, v) =>
      if Decided(x, v, truth) then
        if IsFalse(v) != truth then On(w) else Leave(w)
      else
        if IsFalse(v) != truth then On(None) else Leave(if Plain(x) then None else Some(v))
  }

  /** The jump by which one arrives at the second operand of a comparison. */
  function Rest(x: Expr, how: How): Option<Value> { if Quiet(x) && how.At? then how.w else None }

  /** What is left in a register in the end. */
  function Left(how: How): Value {
    match how
    case At(_, v) => v
    case Out(t, c) => if c.Some? then c.value else Bool(t)
  }

  /** codenot: the exits are exchanged, and carry nothing any more. */
  function Inverse(how: How): How {
    match how
    case At(w, v) => At(w, Bool(IsFalse(v)))
    case Out(t, _) => Out(!t, None)
  }

  /** How the code of x leaves when one arrives at it by a jump that carries w. */
  function Flow(env: Env, x: Expr, r: Regs, w: Option<Value>): How {
    match x
    case Negation(e) => Inverse(Flow(env, e, r, w))
    case And(a, b) =>
      (match GoIf(a, Flow(env, a, r, w), true)
       case On(u) => Flow(env, b, r, u)
       case Leave(c) => Out(false, c))
    case Or(a, b) =>
      (match GoIf(a, Flow(env, a, r, w), false)
       case On(u) => Flow(env, b, r, u)
       case Leave(c) => Out(true, c))
    case Compare(op, a, b) =>
      var h := Flow(env, a, r, w);
      At(None, Bool(Holds(env, op, Left(h), Left(Flow(env, b, r, Rest(a, h))))))
    case _ => At(w, Eval(env, x, r))
  }

  /** What the code computes. */
  function Delivered(env: Env, x: Expr, r: Regs, w: Option<Value>): Value { Left(Flow(env, x, r, w)) }

  lemma FlowAgree(env: Env, x: Expr, nactvar: nat, r: Regs, r': Regs, n: nat, w: Option<Value>)
    requires Scoped(x, nactvar) && nactvar <= n && Agree(r, r', n, -1)
    ensures Flow(env, x, r', w) == Flow(env, x, r, w)
  {
  }

  /** A literal core keeps its value. */
  lemma {:induction false} LiteralValue(env: Env, x: Expr, r: Regs, w: Option<Value>)
    requires IsLiteral(x) && Flow(env, x, r, w).At?
    ensures Flow(env, x, r, w).v == LiteralOf(x) && LiteralOf(x) != Nil
  {
    match x
    case Negation(e) => LiteralValue(env, e, r, w);
    case And(a, b) => LiteralValue(env, b, r, GoIf(a, Flow(env, a, r, w), true).w);
    case Or(a, b) => LiteralValue(env, b, r, GoIf(a, Flow(env, a, r, w), false).w);
    case _ =>
  }

  // ---- When the code is right ----

  /** The first operand leaves by a jump that its literal took over, with another value than the literal. */
  predicate TakesOver(x: Expr, how: How, truth: bool) {
    how.At? && Decided(x, how.v, truth) && how.w.Some? && how.w.value != how.v
  }

  /** The code of x leaves by a jump that a literal took over, with another value. */
  predicate Strays(env: Env, x: Expr, r: Regs, w: Option<Value>) {
    match x
    case And(a, b) =>
      var h := Flow(env, a, r, w);
      (match GoIf(a, h, true)
       case On(u) => Strays(env, b, r, u)
       case Leave(_) => if h.Out? then Strays(env, a, r, w) else TakesOver(a, h, true))
    case Or(a, b) =>
      var h := Flow(env, a, r, w);
      (match GoIf(a, h, false)
       case On(u) => Strays(env, b, r, u)
       case Leave(_) => if h.Out? then Strays(env, a, r, w) else TakesOver(a, h, false))
    case _ => false
  }

  /** No operand of a comparison strays. */
  predicate Straight(env: Env, x: Expr, r: Regs, w: Option<Value>) {
    match x
    case Negation(e) => Straight(env, e, r, w)
    case And(a, b) =>
      var go := GoIf(a, Flow(env, a, r, w), true);
      Straight(env, a, r, w) && (go.On? ==> Straight(env, b, r, go.w))
    case Or(a, b) =>
      var go := GoIf(a, Flow(env, a, r, w), false);
      Straight(env, a, r, w) && (go.On? ==> Straight(env, b, r, go.w))
    case Compare(_, a, b) =>
      var u := Rest(a, Flow(env, a, r, w));
      && Straight(env, a, r, w) && !Strays(env, a, r, w)
      && Straight(env, b, r, u) && !Strays(env, b, r, u)
    case _ => true
  }

  /** The code goes where it should, and takes the right value there exactly if it does not stray. */
  ghost predicate Meant(env: Env, x: Expr, r: Regs, w: Option<Value>) {
    var v := Eval(env, x, r);
    match Flow(env, x, r, w)
    case At(_, u) => u == v && !Strays(env, x, r, w) && (Plain(x) ==> v.Bool?)
    case Out(t, c) => IsFalse(v) != t && (Strays(env, x, r, w) <==> Left(Out(t, c)) != v)
  }

  lemma {:induction false} FlowMeaning(env: Env, x: Expr, r: Regs, w: Option<Value>)
    requires Straight(env, x, r, w)
    ensures Meant(env, x, r, w)
  {
    match x
    case Negation(e) => FlowMeaning(env, e, r, w);
    case And(a, b) =>
      FlowMeaning(env, a, r, w);
      GoIfMeaning(env, a, r, w, true);
      var go := GoIf(a, Flow(env, a, r, w), true);
      if go.On? {
        FlowMeaning(env, b, r, go.w);
      }
    case Or(a, b) =>
      FlowMeaning(env, a, r, w);
      GoIfMeaning(env, a, r, w, false);
      var go := GoIf(a, Flow(env, a, r, w), false);
      if go.On? {
        FlowMeaning(env, b, r, go.w);
      }
    case Compare(_, a, b) =>
      FlowMeaning(env, a, r, w);
      FlowMeaning(env, b, r, Rest(a, Flow(env, a, r, w)));
    case _ =>
  }

  lemma GoIfMeaning(env: Env, a: Expr, r: Regs, w: Option<Value>, truth: bool)
    requires Meant(env, a, r, w)
    ensures var h := Flow(env, a, r, w);
            var v := Eval(env, a, r);
            match GoIf(a, h, truth)
            case On(_) => IsFalse(v) != truth
            case Leave(c) =>
              && IsFalse(v) == truth
              && ((if h.Out? then Strays(env, a, r, w) else TakesOver(a, h, truth)) <==> Left(Out(!truth, c)) != v)
  {
    if IsLiteral(a) && Flow(env, a, r, w).At? {
      LiteralValue(env, a, r, w);
    }
  }

  /** The code computes the value of x exactly if it does not leave by a jump that a literal took over. */
  lemma DeliveredMeaning(env: Env, x: Expr, r: Regs, w: Option<Value>)
    requires Straight(env, x, r, w)
    ensures Delivered(env, x, r, w) == Eval(env, x, r) <==> !Strays(env, x, r, w)
  {
    FlowMeaning(env, x, r, w);
  }

  // ---- Expressions that are always compiled right ----

  /** A jump that carries a value may wait at the last operand of x, if one may wait at the start (w). */
  predicate MayWait(x: Expr, w: bool)
    decreases x, 0
  {
    match x
    case Negation(e) => MayWait(e, w)
    case And(a, b) => MayWait(b, MayGoOn(a, w, true))
    case Or(a, b) => MayWait(b, MayGoOn(a, w, false))
    case Compare(_, _, _) => false
    case _ => w
  }

  /** A jump that carries a value may go on to the second operand, when the first, x, is `truth`. */
  predicate MayGoOn(x: Expr, w: bool, truth: bool)
    decreases x, 1
  {
    MayLeave(x, w, truth) || (Decided(x, LiteralOf(x), truth) && MayWait(x, w))
  }

  /** An exit of x, for `side`, may carry a value. */
  predicate MayLeave(x: Expr, w: bool, side: bool)
    decreases x, 0
  {
    match x
    case And(a, b) => MayLeave(b, MayGoOn(a, w, true), side) || (!side && MayExit(a, w, true))
    case Or(a, b) => MayLeave(b, MayGoOn(a, w, false), side) || (side && MayExit(a, w, false))
    case _ => false
  }

  /** An exit of the first operand of a connective may carry a value. */
  predicate MayExit(x: Expr, w: bool, truth: bool)
    decreases x, 1
  {
    || MayLeave(x, w, !truth)
    || (if Decided(x, LiteralOf(x), truth) then IsFalse(LiteralOf(x)) == truth && MayWait(x, w) else !Plain(x))
  }

  /** The literal that ends the first operand takes over no jump that carries a value. */
  predicate KeepsOff(x: Expr, w: bool, truth: bool) {
    Decided(x, LiteralOf(x), truth) && IsFalse(LiteralOf(x)) == truth ==> !MayWait(x, w)
  }

  /** Nowhere in x does a literal take over a jump that carries a value. */
  predicate Safe(x: Expr, w: bool) {
    match x
    case Negation(e) => Safe(e, w)
    case And(a, b) => Safe(a, w) && KeepsOff(a, w, true) && Safe(b, MayGoOn(a, w, true))
    case Or(a, b) => Safe(a, w) && KeepsOff(a, w, false) && Safe(b, MayGoOn(a, w, false))
    case Compare(_, a, b) => Safe(a, w) && Safe(b, Quiet(a) && MayWait(a, w))
    case _ => true
  }

  /** What a safe expression may carry along. */
  ghost predicate Bounded(env: Env, x: Expr, r: Regs, u: Option<Value>, w: bool) {
    && Straight(env, x, r, u) && !Strays(env, x, r, u)
    && match Flow(env, x, r, u)
       case At(u', _) => u'.Some? ==> MayWait(x, w)
       case Out(t, c) => c.Some? ==> MayLeave(x, w, t)
  }

  lemma {:induction false} SafeBounded(env: Env, x: Expr, r: Regs, u: Option<Value>, w: bool)
    requires Safe(x, w) && (u.Some? ==> w)
    ensures Bounded(env, x, r, u, w)
  {
    hide Eval, Holds, Quiet, KeepsOff, TakesOver, MayGoOn, MayExit, GoIf, Left;
    match x
    case Negation(e) => SafeBounded(env, e, r, u, w);
    case And(a, b) =>
      SafeBounded(env, a, r, u, w);
      GoIfBounded(env, a, r, u, w, true);
      var go := GoIf(a, Flow(env, a, r, u), true);
      if go.On? {
        SafeBounded(env, b, r, go.w, MayGoOn(a, w, true));
      }
    case Or(a, b) =>
      SafeBounded(env, a, r, u, w);
      GoIfBounded(env, a, r, u, w, false);
      var go := GoIf(a, Flow(env, a, r, u), false);
      if go.On? {
        SafeBounded(env, b, r, go.w, MayGoOn(a, w, false));
      }
    case Compare(_, a, b) =>
      SafeBounded(env, a, r, u, w);
      SafeBounded(env, b, r, Rest(a, Flow(env, a, r, u)), Quiet(a) && MayWait(a, w));
      assert Flow(env, x, r, u).At? && Flow(env, x, r, u).w == None;
    case _ =>
  }

  lemma GoIfBounded(env: Env, a: Expr, r: Regs, u: Option<Value>, w: bool, truth: bool)
    requires Bounded(env, a, r, u, w) && KeepsOff(a, w, truth)
    ensures match GoIf(a, Flow(env, a, r, u), truth)
            case On(u') => u'.Some? ==> MayGoOn(a, w, truth)
            case Leave(c) => (c.Some? ==> MayExit(a, w, truth)) && !TakesOver(a, Flow(env, a, r, u), truth)
  {
    if IsLiteral(a) && Flow(env, a, r, u).At? {
      LiteralValue(env, a, r, u);
    }
  }

  /** A safe expression is compiled to code that computes its value. */
  lemma SafeDelivered(env: Env, x: Expr, r: Regs, u: Option<Value>, w: bool)
    requires Safe(x, w) && (u.Some? ==> w)
    ensures Delivered(env, x, r, u) == Eval(env, x, r)
  {
    SafeBounded(env, x, r, u, w);
    DeliveredMeaning(env, x, r, u);
  }

  /** No operand is a literal. */
  predicate LiteralFree(x: Expr) {
    match x
    case Local(_) => true
    case Upvalue(_) => true
    case Negation(e) => LiteralFree(e)
    case And(a, b) => LiteralFree(a) && LiteralFree(b)
    case Or(a, b) => LiteralFree(a) && LiteralFree(b)
    case Compare(_, a, b) => LiteralFree(a) && LiteralFree(b)
    case _ => false
  }

  /** Without literals every expression is safe. */
  lemma {:induction false} LiteralFreeSafe(x: Expr, w: bool)
    requires LiteralFree(x)
    ensures Safe(x, w) && !IsLiteral(x)
  {
    match x
    case Negation(e) => LiteralFreeSafe(e, w);
    case And(a, b) =>
      LiteralFreeSafe(a, w);
      LiteralFreeSafe(b, MayGoOn(a, w, true));
    case Or(a, b) =>
      LiteralFreeSafe(a, w);
      LiteralFreeSafe(b, MayGoOn(a, w, false));
    case Compare(_, a, b) =>
      LiteralFreeSafe(a, w);
      LiteralFreeSafe(b, Quiet(a) && MayWait(a, w));
    case _ =>
  }

  // ---- An expression that is compiled wrong ----

  /** ((1 or false) and true) or false: the jump over `false` carries 1, and the literal `true` takes it over. */
  lemma TakenOver(env: Env, r: Regs)
    ensures var x := Or(And(Or(Constant(1), False), True), False);
            Eval(env, x, r) == Bool(true) && Delivered(env, x, r, None) == Other(1)
            && Straight(env, x, r, None) && Strays(env, x, r, None)
  {
    var a := Or(Constant(1), False);
    var b := And(a, True);
    assert Eval(env, Constant(1), r) == Other(1) && IsLiteral(True) && LiteralOf(True) == Bool(true);
    assert Flow(env, a, r, None) == Out(true, Some(Other(1)));
    assert IsLiteral(b) && Flow(env, b, r, None) == At(Some(Other(1)), Bool(true));
    assert Eval(env, a, r) == Other(1) && Eval(env, b, r) == Bool(true);
    assert GoIf(b, Flow(env, b, r, None), false) == Leave(Some(Other(1)));
    assert Straight(env, a, r, None) && Straight(env, b, r, None);
  }
}
